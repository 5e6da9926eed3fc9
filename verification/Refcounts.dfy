/** The chunk reference counts and their journal (internal/refcount/table.go, internal/refcount/journal.go). */
module Refcounts {
  import opened Bytes
  import opened Journals

  /** How a write to the journal file ends: so many bytes of it get there at most, and then it may not be
      synced. */
  datatype Turn = Turn(takes: nat, synced: bool)

  /** An open journal file. Its next writes end as turns says, and all later ones well. */
  class Journal {
    var file: bytes
    var turns: seq<Turn>
    const crc: Crc

    constructor (file: bytes, crc: Crc, turns: seq<Turn>)
      ensures this.file == file && this.crc == crc && this.turns == turns
    {
      this.file, this.turns := file, turns;
      this.crc := crc;
    }

    /** One encoded record at the end. When that fails, any part of it may be there, or all of it. */
    method Append(op: byte, id: Id, n: uint64) returns (ok: bool)
      modifies this`file, this`turns
      ensures Appended(old(file), EncodeRec(Rec(op, id, n), crc), file)
      ensures ok ==> |file| == |old(file)| + REC
      ensures old(turns) == [] ==> ok && turns == []
    {
      var rec := EncodeRec(Rec(op, id, n), crc);
      if turns == [] {
        file := file + rec;
        return true;
      }
      var turn := turns[0];
      turns := turns[1..];
      if turn.takes < REC {
        file := file + rec[..turn.takes];
        return false;
      }
      file := file + rec;
      return turn.synced;
    }

    /** Empties the file. When that fails it may be empty or as it was. */
    method Truncate() returns (ok: bool)
      modifies this`file, this`turns
      ensures file == [] || file == old(file)
      ensures ok ==> file == []
      ensures old(turns) == [] ==> ok && turns == []
    {
      if turns == [] {
        file := [];
        return true;
      }
      var turn := turns[0];
      turns := turns[1..];
      if turn.takes == 0 {
        return false;
      }
      file := [];
      return turn.synced;
    }

    /** Applies the records to t one by one. */
    method ReplayInto(t: Table) returns (fault: ReplayResult)
      requires t.Valid()
      modifies t`counts, t`dirty
      ensures t.Valid()
      ensures fault == Fine <==> Replay(old(t.counts), file, crc).Ok?
      ensures fault == Fine ==> t.counts == Replay(old(t.counts), file, crc).counts
      ensures fault.Bad? ==> Replay(old(t.counts), file, crc) == Err(fault.why)
    {
      hide Replay, Intact, DecodeRec;
      var pos := 0;
      assert file[0..] == file;
      while true
        invariant pos <= |file| && t.Valid()
        invariant Replay(t.counts, file[pos..], crc) == Replay(old(t.counts), file, crc)
        decreases |file| - pos
      {
        ReplayRound(t.counts, file[pos..], crc);
        if |file| - pos < REC {
          return Fine;   // end of file, or a half-written record
        }
        var buf := file[pos..pos + REC];
        assert file[pos..][..REC] == buf && file[pos..][REC..] == file[pos + REC..];
        if !Intact(buf, crc) {
          return Bad(BadRecord);
        }
        var r := DecodeRec(buf);
        if r.op == INC {
          var cur := t.Get(r.id);
          t.Set(r.id, (cur + r.n) % TWO64);
        } else if r.op == DEC {
          var cur := t.Get(r.id);
          if cur < r.n {
            return Bad(Underflow);
          }
          t.Set(r.id, cur - r.n);
        } else if r.op != CHECKPOINT {
          return Bad(UnknownOp);
        }
        pos := pos + REC;
      }
    }
  }

  /** Some of the bytes of rec came behind was, perhaps none, perhaps all. */
  ghost predicate Appended(was: bytes, rec: bytes, now: bytes) {
    |was| <= |now| <= |was| + |rec| && now == was + rec[..|now| - |was|]
  }

  datatype ReplayResult = Fine | Bad(why: ReplayFault)

  class Table {
    var counts: Counts
    var dirty: int
    var j: Journal?

    ghost predicate Valid()
      reads this
    {
      NoZeros(counts)
    }

    /** A crash now would bring exactly these counts back from a snapshot of base. */
    ghost predicate Recovers(base: Counts)
      reads this, j
    {
      j != null && |j.file| % REC == 0 && Replay(base, j.file, j.crc) == Ok(counts)
    }

    /** No write to the journal is going to fail. */
    ghost predicate JournalWorks()
      reads this, j
    {
      j != null ==> j.turns == []
    }

    constructor ()
      ensures Valid() && counts == map[] && j == null
    {
      counts, dirty, j := map[], 0, null;
    }

    method AttachJournal(journal: Journal)
      modifies this`j
      ensures j == journal
    {
      j := journal;
    }

    method Get(id: Id) returns (n: uint64)
      ensures n == Count(counts, id)
    {
      n := if id in counts then counts[id] else 0;
    }

    method Set(id: Id, n: uint64)
      requires Valid()
      modifies this`counts, this`dirty
      ensures Valid() && counts == SetCount(old(counts), id, n) && dirty == old(dirty) + 1
    {
      if n == 0 {
        counts := counts - {id};
      } else {
        counts := counts[id := n];
      }
      dirty := dirty + 1;
    }

    /** Adds n references. When the journal cannot be written none are added, and a replay then gives the
        old table, or, if the whole record got there after all, the one with the references added. */
    method Add(id: Id, n: uint64) returns (ok: bool)
      requires Valid() && Count(counts, id) + n < TWO64
      modifies this`counts, this`dirty, j
      ensures Valid() && (old(JournalWorks()) ==> ok && JournalWorks())
      ensures counts == if ok then SetCount(old(counts), id, Count(old(counts), id) + n) else old(counts)
      ensures dirty == if ok && n > 0 then old(dirty) + 1 else old(dirty)
      ensures j != null ==> Written(old(j.file), Rec(INC, id, n), ok)
      ensures forall base :: old(Recovers(base)) ==> Replays(base, old(counts), Rec(INC, id, n), ok, old(|j.file|))
    {
      hide Replay, Apply, EncodeRec;
      if n == 0 {
        return true;
      }
      ghost var was := counts;
      ApplyChange(was, id, n);
      var cur := if id in counts then counts[id] else 0;
      counts := counts[id := (cur + n) % TWO64];
      dirty := dirty + 1;
      if j != null {
        ghost var file := j.file;
        ok := j.Append(INC, id, n);
        Followed(was, file, Rec(INC, id, n), j.file, j.crc);
        if !ok {
          if counts[id] - n == 0 {
            counts := counts - {id};
          } else {
            counts := counts[id := counts[id] - n];
          }
          dirty := dirty - 1;
          assert counts == was;
          return false;
        }
      }
      return true;
    }

    /** The journal has gone on from file by the record r, all of it if ok; by nothing for no references. */
    ghost predicate Written(file: bytes, r: Rec, ok: bool)
      reads this, j
      requires j != null
    {
      && Appended(file, EncodeRec(r, j.crc), j.file)
      && (r.n == 0 ==> j.file == file)
      && (ok && r.n > 0 ==> |j.file| == |file| + REC)
    }

    /** What a replay over base gives once r has been journalled, or failed to be, behind size bytes. */
    ghost predicate Replays(base: Counts, was: Counts, r: Rec, ok: bool, size: nat)
      reads this, j
    {
      && j != null
      && (ok ==> Recovers(base))
      && Replay(base, j.file, j.crc) == if |j.file| == size + REC then Apply(was, r) else Ok(was)
    }

    static lemma ApplyChange(was: Counts, id: Id, n: uint64)
      ensures Count(was, id) + n < TWO64 ==> Apply(was, Rec(INC, id, n)) == Ok(SetCount(was, id, Count(was, id) + n))
      ensures n <= Count(was, id) ==> Apply(was, Rec(DEC, id, n)) == Ok(SetCount(was, id, Count(was, id) - n))
    {
    }

    /** What a journal replays to with some or all of one more record behind it. */
    static lemma Followed(was: Counts, file: bytes, r: Rec, now: bytes, crc: Crc)
      requires Appended(file, EncodeRec(r, crc), now)
      ensures forall base :: |file| % REC == 0 && Replay(base, file, crc) == Ok(was) ==>
                Replay(base, now, crc) == if |now| == |file| + REC then Apply(was, r) else Ok(was)
    {
      hide Replay, EncodeRec, Apply, Intact, DecodeRec;
      var part := EncodeRec(r, crc)[..|now| - |file|];
      forall base | |file| % REC == 0 && Replay(base, file, crc) == Ok(was)
        ensures Replay(base, now, crc) == if |now| == |file| + REC then Apply(was, r) else Ok(was)
      {
        if |now| == |file| + REC {
          assert part == EncodeRec(r, crc);
          ReplayOneMore(base, file, r, crc);
        } else {
          ReplayAppend(base, file, part, crc);
          ReplayRound(was, part, crc);
        }
      }
    }

    /** Takes n references away; refuses to go below zero. When the journal cannot be written, as for Add. */
    method Sub(id: Id, n: uint64) returns (ok: bool)
      requires Valid()
      modifies this`counts, this`dirty, j
      ensures Valid() && (old(JournalWorks()) ==> JournalWorks())
      ensures ok ==> n <= Count(old(counts), id)
      ensures old(JournalWorks()) && n <= Count(old(counts), id) ==> ok
      ensures counts == if ok then SetCount(old(counts), id, Count(old(counts), id) - n) else old(counts)
      ensures dirty == if ok && n > 0 then old(dirty) + 1 else old(dirty)
      ensures n > Count(old(counts), id) && j != null ==> j.file == old(j.file)
      ensures n <= Count(old(counts), id) && j != null ==> Written(old(j.file), Rec(DEC, id, n), ok)
      ensures n <= Count(old(counts), id) ==>
                forall base :: old(Recovers(base)) ==> Replays(base, old(counts), Rec(DEC, id, n), ok, old(|j.file|))
    {
      hide Replay, Apply, EncodeRec;
      if n == 0 {
        return true;
      }
      ApplyChange(counts, id, n);
      if id !in counts || counts[id] < n {
        return false;
      }
      ghost var was := counts;
      var cur := counts[id] - n;
      if cur == 0 {
        counts := counts - {id};
      } else {
        counts := counts[id := cur];
      }
      dirty := dirty + 1;
      if j != null {
        ghost var file := j.file;
        ok := j.Append(DEC, id, n);
        Followed(was, file, Rec(DEC, id, n), j.file, j.crc);
        if !ok {
          counts := counts[id := cur + n];
          dirty := dirty - 1;
          assert counts == was;
          return false;
        }
      }
      return true;
    }

    /** A batch got as far as the first n of ids: their records are in the journal behind file, and if it
        stopped there, some or all of the next one. */
    ghost predicate GotTo(file: bytes, op: byte, ids: seq<Id>, n: nat)
      requires n <= |ids|
      reads this, j
    {
      j != null ==>
        var whole := file + Image(Changes(op, ids[..n]), j.crc);
        if n == |ids| then j.file == whole else Appended(whole, EncodeRec(Rec(op, ids[n], 1), j.crc), j.file)
    }

    /** One more reference for every listed chunk, as often as it is listed. When the journal cannot be
        written at some point, exactly the ones before are counted, and a replay gives those or one more. */
    method AddMany(ids: seq<Id>) returns (ok: bool, ghost done: nat)
      requires Valid() && forall id :: Count(counts, id) + |ids| < TWO64
      modifies this`counts, this`dirty, j
      ensures Valid() && (old(JournalWorks()) ==> ok && JournalWorks())
      ensures done <= |ids| && (ok <==> done == |ids|)
      ensures Plus(counts, old(counts), ids[..done]) && dirty == old(dirty) + done
      ensures GotTo(if j == null then [] else old(j.file), INC, ids, done)
      ensures ok ==> Plus(counts, old(counts), ids)
      ensures ok ==> forall base :: old(Recovers(base)) ==> Recovers(base)
      ensures !ok ==> forall base :: old(Recovers(base)) ==>
                Replays(base, counts, Rec(INC, ids[done], 1), false, old(|j.file|) + REC * done)
    {
      hide Replay, EncodeRec, Image, Plus, SetCount, Apply, Appended;
      PlusNothing(counts);
      if j != null { ImageOfNothing(INC, j.crc); }
      assert ids[..0] == [];
      done := 0;
      for i := 0 to |ids|
        invariant done == i && Valid() && (old(JournalWorks()) ==> JournalWorks())
        invariant Plus(counts, old(counts), ids[..i])
        invariant j != null ==> j.file == old(j.file) + Image(Changes(INC, ids[..i]), j.crc)
        invariant dirty == old(dirty) + i
        invariant forall base :: old(Recovers(base)) ==> Recovers(base)
      {
        if j != null { ImageOfOneMore(INC, ids, i, j.crc); }
        PlusOneMore(counts, old(counts), ids, i);
        ghost var before := if j == null then [] else j.file;
        ok := Add(ids[i], 1);
        if !ok {
          return false, i;
        }
        if j != null { WholeRecord(before, EncodeRec(Rec(INC, ids[i], 1), j.crc), j.file); }
        done := i + 1;
      }
      assert ids[..|ids|] == ids;
      ok := true;
    }

    static lemma WholeRecord(was: bytes, rec: bytes, now: bytes)
      requires Appended(was, rec, now) && |now| == |was| + |rec|
      ensures now == was + rec
    {
    }

    static lemma PlusNothing(was: Counts)
      ensures Plus(was, was, [])
    {
    }

    static lemma PlusOneMore(now: Counts, was: Counts, ids: seq<Id>, i: nat)
      requires i < |ids| && Plus(now, was, ids[..i]) && Count(was, ids[i]) + |ids| < TWO64
      ensures Count(now, ids[i]) + 1 < TWO64
      ensures Plus(SetCount(now, ids[i], Count(now, ids[i]) + 1), was, ids[..i + 1])
    {
      assert ids[..i + 1] == ids[..i] + [ids[i]];
      AtMostAll(ids[..i], ids[i]);
    }

    /** One reference less for every listed chunk. With a journal that works it goes through exactly when
        every chunk is listed at most as often as it is counted; otherwise the ones before the first missing
        reference, or the first failing write, are gone. */
    method SubMany(ids: seq<Id>) returns (ok: bool, ghost done: nat)
      requires Valid()
      modifies this`counts, this`dirty, j
      ensures Valid() && (old(JournalWorks()) ==> JournalWorks())
      ensures done <= |ids| && (ok <==> done == |ids|)
      ensures Minus(counts, old(counts), ids[..done]) && dirty == old(dirty) + done
      ensures GotTo(if j == null then [] else old(j.file), DEC, ids, done)
      ensures ok ==> Minus(counts, old(counts), ids) && forall id :: multiset(ids)[id] <= Count(old(counts), id)
      ensures old(JournalWorks()) && (forall id :: multiset(ids)[id] <= Count(old(counts), id)) ==> ok
      ensures !ok && old(JournalWorks()) ==> Count(counts, ids[done]) == 0
      ensures !ok && Count(counts, ids[done]) == 0 && j != null ==>
                j.file == old(j.file) + Image(Changes(DEC, ids[..done]), j.crc)
      ensures ok || Count(counts, ids[done]) == 0 ==> forall base :: old(Recovers(base)) ==> Recovers(base)
      ensures !ok && Count(counts, ids[done]) > 0 ==> forall base :: old(Recovers(base)) ==>
                Replays(base, counts, Rec(DEC, ids[done], 1), false, old(|j.file|) + REC * done)
    {
      hide Replay, EncodeRec, Image, Minus, SetCount, Apply, Appended;
      MinusNothing(counts);
      if j != null { ImageOfNothing(DEC, j.crc); }
      assert ids[..0] == [];
      done := 0;
      for i := 0 to |ids|
        invariant done == i && Valid() && (old(JournalWorks()) ==> JournalWorks())
        invariant Minus(counts, old(counts), ids[..i])
        invariant j != null ==> j.file == old(j.file) + Image(Changes(DEC, ids[..i]), j.crc)
        invariant dirty == old(dirty) + i
        invariant forall base :: old(Recovers(base)) ==> Recovers(base)
      {
        if j != null { ImageOfOneMore(DEC, ids, i, j.crc); }
        ghost var was, before := counts, if j == null then [] else j.file;
        ok := Sub(ids[i], 1);
        if !ok {
          if Count(counts, ids[i]) == 0 {
            MinusStuck(counts, old(counts), ids, i);
            if j != null { NothingCame(j.file, EncodeRec(Rec(DEC, ids[i], 1), j.crc)); }
          }
          return false, i;
        }
        if j != null { WholeRecord(before, EncodeRec(Rec(DEC, ids[i], 1), j.crc), j.file); }
        MinusOneMore(was, old(counts), ids, i);
        done := i + 1;
      }
      MinusAll(counts, old(counts), ids);
      assert ids[..|ids|] == ids;
      ok := true;
    }

    static lemma NothingCame(was: bytes, rec: bytes)
      ensures Appended(was, rec, was)
    {
    }

    static lemma MinusNothing(was: Counts)
      ensures Minus(was, was, [])
    {
    }

    static lemma MinusOneMore(now: Counts, was: Counts, ids: seq<Id>, i: nat)
      requires i < |ids| && Minus(now, was, ids[..i]) && Count(now, ids[i]) >= 1
      ensures Minus(SetCount(now, ids[i], Count(now, ids[i]) - 1), was, ids[..i + 1])
    {
      assert ids[..i + 1] == ids[..i] + [ids[i]];
    }

    static lemma MinusAll(now: Counts, was: Counts, ids: seq<Id>)
      requires Minus(now, was, ids[..|ids|])
      ensures forall id :: multiset(ids)[id] <= Count(was, id)
    {
      assert ids[..|ids|] == ids;
    }

    /** Once a listed chunk has no reference left to take, it was listed more often than counted. */
    static lemma MinusStuck(now: Counts, was: Counts, ids: seq<Id>, i: nat)
      requires i < |ids| && Minus(now, was, ids[..i]) && Count(now, ids[i]) == 0
      ensures multiset(ids)[ids[i]] > Count(was, ids[i])
    {
      assert ids == ids[..i] + [ids[i]] + ids[i + 1..];
    }

    method Snapshot() returns (m: Counts)
      ensures m == counts
    {
      m := counts;
    }

    method LoadMap(m: Counts)
      modifies this`counts, this`dirty
      ensures Valid()
      ensures forall id :: Count(counts, id) == Count(m, id)
      ensures NoZeros(m) ==> counts == m
      ensures dirty == 0
    {
      counts := map id | id in m && m[id] > 0 :: m[id];
      dirty := 0;
    }

    method MarkClean()
      modifies this`dirty
      ensures dirty == 0
    {
      dirty := 0;
    }
  }
}
