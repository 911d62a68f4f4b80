/** Ticks reach the canonical state, and one reconcile puts any visibly damaged machine on the way
    there. The measure is the number of pending records; what can keep it from reaching zero is an
    acknowledgement that is ahead in version and behind in generation, which no run produces. */
module IndexConvergence {
  import opened Wrappers
  import opened MemoryStore
  import opened StoreInvariants
  import opened IndexProtocol
  import opened IndexGuarantees
  import opened MemoryIndex
  import Fts = MemoryFts

  /** Milvus holds for `id` what the canonical row and the current generation say. */
  ghost predicate MilvusRight(x: Machine, me: Local, id: MemoryId)
    requires id in x.db.memories
  {
    var m := x.db.memories[id];
    if m.Deleted() then id !in x.milvus
    else
      id in x.milvus
      && x.milvus[id] == MilvusRowOf(m, x.db.meta.generation, Embedding(me.server.model, m.text))
  }

  /** `is_acked` answers yes for the current row and generation. */
  predicate AckedNow(db: Db, id: MemoryId)
    requires id in db.memories
  {
    IsAcked(db, Milvus, id, db.memories[id].version, db.meta.generation)
  }

  /** Pending, yet every worker is told it is already indexed: the acknowledgement is ahead in
      version and behind in generation. */
  predicate Stuck(db: Db, id: MemoryId)
    requires id in db.memories
  {
    IsPending(db, Milvus, id) && AckedNow(db, id)
  }

  function StuckIds(db: Db): set<MemoryId> {
    set id | id in db.memories && Stuck(db, id)
  }

  /** What is wrong in Milvus is owed: the record is pending and a worker will write it. */
  ghost predicate MilvusOwed(x: Machine, me: Local, id: MemoryId)
    requires id in x.db.memories
  {
    MilvusRight(x, me, id) || (IsPending(x.db, Milvus, id) && !AckedNow(x.db, id))
  }

  /** What is wrong in the file is owed, and no watermark stands in the way. */
  ghost predicate FtsOwed(x: Machine, me: Local, id: MemoryId)
    requires id in x.db.memories
  {
    HeldNow(x.db, x.file, id)
    || (IsPending(x.db, me.FtsConsumer(), id)
        && (id in x.file.marks ==> x.file.marks[id].version < x.db.memories[id].version))
  }

  ghost predicate Settled(x: Machine, me: Local) {
    && x.milvus.Keys <= x.db.memories.Keys && x.file.rows.Keys <= x.db.memories.Keys
    && (forall id | id in x.db.memories :: MilvusOwed(x, me, id) && FtsOwed(x, me, id))
  }

  /** Only index copies and acknowledgements changed. */
  predicate SameRows(x: Machine, y: Machine) {
    y.db == x.db.(acks := y.db.acks) && y.blocked == x.blocked
  }

  /** What Milvus had right it still has right, and records outside `touched` keep their copy. */
  ghost predicate CopyFrame(x: Machine, y: Machine, me: Local, touched: set<MemoryId>)
    requires y.db.memories == x.db.memories
  {
    && (forall id | id in x.db.memories :: MilvusRight(x, me, id) ==> MilvusRight(y, me, id))
    && (forall id | id in x.db.memories && id !in touched ::
          MilvusRight(y, me, id) ==> MilvusRight(x, me, id))
  }

  // ---- One record -------------------------------------------------------------------------

  lemma MilvusOneAt(x: Machine, me: Local, id: MemoryId, fault: Fault, o: MemoryId)
    requires !x.blocked && !Refused(x.db.meta, me.server)
    requires id in x.db.memories && o in x.db.memories
    requires MilvusOwed(x, me, o) && FtsOwed(x, me, o)
    ensures var y := MilvusOne(x, me, id, fault).0;
            && SameRows(x, y) && y.milvus.Keys <= x.milvus.Keys + {id} && y.file == x.file
            && MilvusOwed(y, me, o) && FtsOwed(y, me, o)
            && (MilvusRight(x, me, o) ==> MilvusRight(y, me, o))
            && (o != id && MilvusRight(y, me, o) ==> MilvusRight(x, me, o))
            && (IsPending(y.db, Milvus, o) <==>
                  IsPending(x.db, Milvus, o) && !(o == id && fault == NoFault && !AckedNow(x.db, id)))
            && (IsPending(y.db, me.FtsConsumer(), o) <==> IsPending(x.db, me.FtsConsumer(), o))
            && (Stuck(y.db, o) <==> Stuck(x.db, o))
  {
    hide MilvusOne, Refused, MilvusRight, FtsOwed, IsPending, AckedNow, AckTx;
    if o == id { MilvusOneSelf(x, me, id, fault); } else { MilvusOneOther(x, me, id, fault, o); }
    MilvusOneFile(x, me, id, fault, o);
  }

  lemma MilvusOneSelf(x: Machine, me: Local, id: MemoryId, fault: Fault)
    requires !x.blocked && !Refused(x.db.meta, me.server)
    requires id in x.db.memories && MilvusOwed(x, me, id)
    ensures var y := MilvusOne(x, me, id, fault).0;
            && SameRows(x, y) && y.milvus.Keys <= x.milvus.Keys + {id} && y.file == x.file
            && MilvusOwed(y, me, id) && (MilvusRight(x, me, id) ==> MilvusRight(y, me, id))
            && (IsPending(y.db, Milvus, id) <==>
                  IsPending(x.db, Milvus, id) && !(fault == NoFault && !AckedNow(x.db, id)))
            && (Stuck(y.db, id) <==> Stuck(x.db, id))
  {
    hide Refused, MilvusRowOf;
  }

  lemma MilvusOneOther(x: Machine, me: Local, id: MemoryId, fault: Fault, o: MemoryId)
    requires !x.blocked && !Refused(x.db.meta, me.server)
    requires id in x.db.memories && o in x.db.memories && o != id
    ensures var y := MilvusOne(x, me, id, fault).0;
            && SameRows(x, y) && y.milvus.Keys <= x.milvus.Keys + {id}
            && MilvusRight(x, me, o) == MilvusRight(y, me, o)
            && IsPending(y.db, Milvus, o) == IsPending(x.db, Milvus, o)
            && AckedNow(y.db, o) == AckedNow(x.db, o)
  {
    hide Refused, MilvusRowOf;
  }

  lemma MilvusOneFile(x: Machine, me: Local, id: MemoryId, fault: Fault, o: MemoryId)
    requires id in x.db.memories && o in x.db.memories
    ensures var y := MilvusOne(x, me, id, fault).0;
            && y.file == x.file && y.db.memories == x.db.memories
            && IsPending(y.db, me.FtsConsumer(), o) == IsPending(x.db, me.FtsConsumer(), o)
            && FtsOwed(y, me, o) == FtsOwed(x, me, o)
  {
    hide Refused, MilvusRowOf, Fts.RowOf;
  }

  lemma MilvusOneKeeps(x: Machine, me: Local, id: MemoryId, fault: Fault)
    requires Settled(x, me) && !x.blocked && !Refused(x.db.meta, me.server)
    requires id in x.db.memories
    ensures var y := MilvusOne(x, me, id, fault).0;
            && Settled(y, me) && SameRows(x, y) && CopyFrame(x, y, me, {id})
            && PendingIds(y.db, Milvus)
               == PendingIds(x.db, Milvus) - (if fault == NoFault && !AckedNow(x.db, id) then {id} else {})
            && PendingIds(y.db, me.FtsConsumer()) == PendingIds(x.db, me.FtsConsumer())
            && StuckIds(y.db) == StuckIds(x.db)
  {
    hide MilvusOne, MilvusRight, MilvusOwed, FtsOwed, IsPending, Stuck, AckedNow, Refused;
    MilvusOneAt(x, me, id, fault, id);
    forall o | o in x.db.memories { MilvusOneAt(x, me, id, fault, o); }
  }

  lemma FtsOneAt(x: Machine, me: Local, id: MemoryId, fault: Fault, o: MemoryId)
    requires id in x.db.memories && o in x.db.memories
    requires MilvusOwed(x, me, o) && FtsOwed(x, me, o)
    ensures var y := FtsOne(x, me, id, fault).0;
            && SameRows(x, y) && y.milvus == x.milvus && y.file.rows.Keys <= x.file.rows.Keys + {id}
            && MilvusOwed(y, me, o) && FtsOwed(y, me, o)
            && (IsPending(y.db, me.FtsConsumer(), o) <==>
                  IsPending(x.db, me.FtsConsumer(), o) && !(o == id && fault == NoFault))
            && (IsPending(y.db, Milvus, o) <==> IsPending(x.db, Milvus, o))
            && (Stuck(y.db, o) <==> Stuck(x.db, o))
  {
    hide FtsOne, MilvusOwed, MilvusRight, FtsOwed, IsPending, AckedNow, AckTx;
    if o == id { FtsOneSelf(x, me, id, fault); } else { FtsOneOther(x, me, id, fault, o); }
    FtsOneMilvus(x, me, id, fault, o);
  }

  lemma FtsOneSelf(x: Machine, me: Local, id: MemoryId, fault: Fault)
    requires id in x.db.memories && FtsOwed(x, me, id)
    ensures var y := FtsOne(x, me, id, fault).0;
            && SameRows(x, y) && y.file.rows.Keys <= x.file.rows.Keys + {id} && FtsOwed(y, me, id)
            && (IsPending(y.db, me.FtsConsumer(), id) <==>
                  IsPending(x.db, me.FtsConsumer(), id) && fault != NoFault)
  {
    hide Fts.RowOf;
  }

  lemma FtsOneOther(x: Machine, me: Local, id: MemoryId, fault: Fault, o: MemoryId)
    requires id in x.db.memories && o in x.db.memories && o != id
    ensures var y := FtsOne(x, me, id, fault).0;
            && SameRows(x, y) && y.file.rows.Keys <= x.file.rows.Keys + {id}
            && FtsOwed(y, me, o) == FtsOwed(x, me, o)
            && IsPending(y.db, me.FtsConsumer(), o) == IsPending(x.db, me.FtsConsumer(), o)
  {
    hide Fts.RowOf;
    assert HeldNow(x.db, x.file, o) == HeldNow(x.db, FtsOne(x, me, id, fault).0.file, o);
  }

  lemma FtsOneMilvus(x: Machine, me: Local, id: MemoryId, fault: Fault, o: MemoryId)
    requires id in x.db.memories && o in x.db.memories
    ensures var y := FtsOne(x, me, id, fault).0;
            && y.milvus == x.milvus && y.db.memories == x.db.memories && y.db.meta == x.db.meta
            && MilvusRight(y, me, o) == MilvusRight(x, me, o)
            && IsPending(y.db, Milvus, o) == IsPending(x.db, Milvus, o)
            && AckedNow(y.db, o) == AckedNow(x.db, o)
            && MilvusOwed(y, me, o) == MilvusOwed(x, me, o)
  {
    hide MilvusRowOf, Fts.Apply;
  }

  lemma FtsOneKeeps(x: Machine, me: Local, id: MemoryId, fault: Fault)
    requires Settled(x, me) && id in x.db.memories
    ensures var y := FtsOne(x, me, id, fault).0;
            && Settled(y, me) && SameRows(x, y) && y.milvus == x.milvus
            && PendingIds(y.db, me.FtsConsumer())
               == PendingIds(x.db, me.FtsConsumer()) - (if fault == NoFault then {id} else {})
            && PendingIds(y.db, Milvus) == PendingIds(x.db, Milvus)
            && StuckIds(y.db) == StuckIds(x.db)
  {
    hide FtsOne, MilvusOwed, FtsOwed, IsPending, Stuck, AckedNow;
    FtsOneAt(x, me, id, fault, id);
    forall o | o in x.db.memories { FtsOneAt(x, me, id, fault, o); }
  }

  // ---- One pass ---------------------------------------------------------------------------

  function Members(ids: seq<MemoryId>): set<MemoryId> { set id | id in ids }

  /** The records of a pass whose calls do not raise. */
  function Fine(ids: seq<MemoryId>, faults: Faults): set<MemoryId> {
    set id | id in ids && faults(id) == NoFault
  }

  lemma {:induction false} FtsAllKeeps(x: Machine, me: Local, ids: seq<MemoryId>, faults: Faults)
    requires Settled(x, me) && forall id | id in ids :: id in x.db.memories
    ensures var y := FtsAll(x, me, ids, faults);
            && Settled(y, me) && SameRows(x, y) && y.milvus == x.milvus
            && PendingIds(y.db, me.FtsConsumer()) == PendingIds(x.db, me.FtsConsumer()) - Fine(ids, faults)
            && PendingIds(y.db, Milvus) == PendingIds(x.db, Milvus)
            && StuckIds(y.db) == StuckIds(x.db)
  {
    hide Settled, FtsOne, PendingIds, StuckIds;
    if ids != [] {
      var front, id := ids[..|ids| - 1], ids[|ids| - 1];
      FtsAllKeeps(x, me, front, faults);
      FtsOneKeeps(FtsAll(x, me, front, faults), me, id, faults(id));
      assert ids == front + [id];
    }
  }

  lemma {:induction false} MilvusAllKeeps(x: Machine, me: Local, ids: seq<MemoryId>, faults: Faults)
    requires Settled(x, me) && !x.blocked && !Refused(x.db.meta, me.server)
    requires forall id | id in ids :: id in x.db.memories
    ensures var y := MilvusAll(x, me, ids, faults);
            && Settled(y, me) && SameRows(x, y) && CopyFrame(x, y, me, Members(ids))
            && PendingIds(y.db, Milvus)
               == PendingIds(x.db, Milvus) - (Fine(ids, faults) - StuckIds(x.db))
            && PendingIds(y.db, me.FtsConsumer()) == PendingIds(x.db, me.FtsConsumer())
            && StuckIds(y.db) == StuckIds(x.db)
  {
    hide Settled, MilvusOne, Refused, IsPending, AckedNow, CopyFrame, StuckIds, PendingIds;
    if ids != [] {
      var front, id := ids[..|ids| - 1], ids[|ids| - 1];
      MilvusAllKeeps(x, me, front, faults);
      var mid := MilvusAll(x, me, front, faults);
      MilvusOneKeeps(mid, me, id, faults(id));
      StuckOrDone(mid.db, id);
      FrameTransitive(x, mid, MilvusAll(x, me, ids, faults), me, Members(front), {id});
      assert ids == front + [id];
      assert Members(ids) == Members(front) + {id};
    } else {
      FrameItself(x, me);
      assert Members(ids) == {};
    }
  }

  lemma FrameItself(x: Machine, me: Local)
    ensures CopyFrame(x, x, me, {})
  {}

  lemma FrameTransitive(x: Machine, y: Machine, z: Machine, me: Local, s: set<MemoryId>, t: set<MemoryId>)
    requires y.db.memories == x.db.memories && z.db.memories == y.db.memories
    requires CopyFrame(x, y, me, s) && CopyFrame(y, z, me, t)
    ensures CopyFrame(x, z, me, s + t)
  {
    hide MilvusRight;
  }

  lemma StuckOrDone(db: Db, id: MemoryId)
    requires id in db.memories
    ensures id in PendingIds(db, Milvus) ==> (AckedNow(db, id) <==> id in StuckIds(db))
  {}

  // ---- One tick ---------------------------------------------------------------------------

  /** Claiming the model changes no row, generation or acknowledgement. */
  lemma RefreshKeeps(x: Machine, me: Local)
    ensures var y := Refresh(x, me);
            && y.db.memories == x.db.memories && y.db.acks == x.db.acks && y.milvus == x.milvus
            && y.file == x.file && y.db.meta.generation == x.db.meta.generation
            && y.blocked == Refused(y.db.meta, me.server)
            && (Settled(x, me) <==> Settled(y, me))
            && (forall c :: PendingIds(y.db, c) == PendingIds(x.db, c))
            && StuckIds(y.db) == StuckIds(x.db)
            && Refresh(y, me) == y
  {
    var y := Refresh(x, me);
    forall id | id in x.db.memories
      ensures MilvusOwed(x, me, id) == MilvusOwed(y, me, id) && FtsOwed(x, me, id) == FtsOwed(y, me, id)
    {}
  }

  /** The machine's model is the memory's, once claimed. */
  predicate Admitted(x: Machine, me: Local) { !Refresh(x, me).blocked }

  lemma BatchOf(db: Db, c: Consumer)
    requires DistinctSeqs(db)
    ensures var b := Batch(db, c);
            && (forall id | id in b :: id in PendingIds(db, c))
            && (forall o, id | o in b && id in PendingIds(db, c) && id !in b ::
                  db.memories[o].changeSeq < db.memories[id].changeSeq)
            && (forall i, j | 0 <= i < j < |b| :: b[i] != b[j])
            && |b| == if |PendingIds(db, c)| < TICK_BATCH then |PendingIds(db, c)| else TICK_BATCH
  {
    hide PendingIds, InSequence;
    PendingRecords(db, c);
    InSequenceLists(db, PendingIds(db, c));
    TakeOf(InSequence(db, PendingIds(db, c)), TICK_BATCH, map id | id in db.memories :: db.memories[id].changeSeq);
  }

  lemma TakeOf(s: seq<MemoryId>, limit: nat, rank: map<MemoryId, nat>)
    requires forall id | id in s :: id in rank
    requires forall i, j | 0 <= i < j < |s| :: rank[s[i]] < rank[s[j]]
    ensures var b := Take(s, Some(limit));
            && (forall id | id in b :: id in s)
            && (forall o, id | o in b && id in s && id !in b :: rank[o] < rank[id])
            && (forall i, j | 0 <= i < j < |b| :: b[i] != b[j])
            && |b| == if |s| < limit then |s| else limit
  {
    var b := Take(s, Some(limit));
    forall k | 0 <= k < |b| ensures s[k] in b { assert b[k] == s[k]; }
    forall o, id | o in b && id in s && id !in b ensures rank[o] < rank[id] {
      var i :| 0 <= i < |b| && b[i] == o;
      var j :| 0 <= j < |s| && s[j] == id;
      assert s[i] == o;
    }
  }

  ghost predicate DistinctSeqs(db: Db) {
    forall a, b | a in db.memories && b in db.memories && a != b ::
      db.memories[a].changeSeq != db.memories[b].changeSeq
  }

  /** A tick takes exactly the calls that do not raise off what is pending, keeps every other debt
      owed, and leaves a stuck record as it is. */
  lemma TickKeeps(x: Machine, me: Local, ff: Faults, mf: Faults)
    requires Settled(x, me) && DistinctSeqs(x.db) && Admitted(x, me)
    ensures var y := Tick(x, me, ff, mf);
            && Settled(y, me) && y.db.memories == x.db.memories && Refresh(y, me) == y.(blocked := false)
            && !y.blocked
            && PendingIds(y.db, me.FtsConsumer())
               == PendingIds(x.db, me.FtsConsumer()) - Fine(Batch(Refresh(x, me).db, me.FtsConsumer()), ff)
            && (exists b :: IsNextBatch(x, b)
                  && PendingIds(y.db, Milvus)
                     == PendingIds(x.db, Milvus) - (Fine(b, mf) - StuckIds(x.db))
                  && CopyFrame(x, y, me, Members(b)))
            && StuckIds(y.db) == StuckIds(x.db)
  {
    hide Settled, PendingIds, StuckIds, Refused, Claim, FtsAll, MilvusAll, Batch, CopyFrame, MilvusRight;
    RefreshKeeps(x, me);
    var x1 := Refresh(x, me);
    var first := Batch(x1.db, me.FtsConsumer());
    BatchOf(x1.db, me.FtsConsumer());
    PendingRecords(x1.db, me.FtsConsumer());
    FtsAllKeeps(x1, me, first, ff);
    var x2 := FtsAll(x1, me, first, ff);
    var second := Batch(x2.db, Milvus);
    BatchOf(x2.db, Milvus);
    PendingRecords(x2.db, Milvus);
    MilvusAllKeeps(x2, me, second, mf);
    assert IsNextBatch(x, second);
    FrameWithin(x, x2, Tick(x, me, ff, mf), MilvusAll(x2, me, second, mf), me, Members(second));
    SettledLagging(MilvusAll(x2, me, second, mf), me, first != [] || second != []);
  }

  /** Only the copies, generation and rows matter to what Milvus has right. */
  lemma FrameWithin(x: Machine, x': Machine, y: Machine, y': Machine, me: Local, t: set<MemoryId>)
    requires x'.db.memories == x.db.memories && y'.db.memories == y.db.memories == x.db.memories
    requires x'.milvus == x.milvus && x'.db.meta.generation == x.db.meta.generation
    requires y'.milvus == y.milvus && y'.db.meta.generation == y.db.meta.generation
    requires CopyFrame(x', y', me, t)
    ensures CopyFrame(x, y, me, t)
  {
    forall id | id in x.db.memories
      ensures MilvusRight(x, me, id) == MilvusRight(x', me, id) && MilvusRight(y, me, id) == MilvusRight(y', me, id)
    {}
  }

  /** The first batch of Milvus-pending records: distinct, every other one has a later change, and
      all of them when they fit. */
  ghost predicate IsNextBatch(x: Machine, b: seq<MemoryId>) {
    && (forall id | id in b :: id in PendingIds(x.db, Milvus) && id in x.db.memories)
    && (forall o, id | o in b && id in PendingIds(x.db, Milvus) && id !in b ::
          id in x.db.memories && x.db.memories[o].changeSeq < x.db.memories[id].changeSeq)
    && (forall i, j | 0 <= i < j < |b| :: b[i] != b[j])
    && |b| == if |PendingIds(x.db, Milvus)| < TICK_BATCH then |PendingIds(x.db, Milvus)| else TICK_BATCH
  }

  lemma PendingRecords(db: Db, c: Consumer)
    ensures forall id | id in PendingIds(db, c) :: id in db.memories
  {}

  lemma SettledLagging(x: Machine, me: Local, lagging: bool)
    requires Settled(x, me)
    ensures Settled(x.(lagging := lagging), me)
  {
    forall id | id in x.db.memories
      ensures MilvusOwed(x.(lagging := lagging), me, id) && FtsOwed(x.(lagging := lagging), me, id)
    {
      assert MilvusOwed(x, me, id) && FtsOwed(x, me, id);
    }
  }

  // ---- Convergence ------------------------------------------------------------------------

  /** `n` ticks in a row with no failing call. */
  ghost function Ticks(x: Machine, me: Local, n: nat): Machine {
    if n == 0 then x else Tick(Ticks(x, me, n - 1), me, NO_FAULTS, NO_FAULTS)
  }

  function Drained(pending: nat, ticks: nat): nat {
    if pending <= ticks * TICK_BATCH then 0 else pending - ticks * TICK_BATCH
  }

  lemma {:induction false} DistinctCount(b: seq<MemoryId>)
    requires forall i, j | 0 <= i < j < |b| :: b[i] != b[j]
    ensures |Members(b)| == |b|
  {
    if b != [] {
      var front, last := b[..|b| - 1], b[|b| - 1];
      DistinctCount(front);
      assert Members(b) == Members(front) + {last};
      assert last !in front;
    }
  }

  lemma TakesOff(pending: set<MemoryId>, rest: set<MemoryId>, b: seq<MemoryId>)
    requires forall id | id in b :: id in pending
    requires forall i, j | 0 <= i < j < |b| :: b[i] != b[j]
    requires |b| == if |pending| < TICK_BATCH then |pending| else TICK_BATCH
    requires rest == pending - Fine(b, NO_FAULTS)
    ensures |rest| == Drained(|pending|, 1)
  {
    DistinctCount(b);
    var done := Members(b);
    assert forall id | id in b :: NO_FAULTS(id) == NoFault;
    assert Fine(b, NO_FAULTS) == done;
    assert pending == rest + done && rest !! done;
    assert |pending| == |rest| + |done|;
    assert |done| == |b|;
  }

  /** Each fault-free tick takes a batch off each consumer's pending records. */
  lemma {:induction false} TicksDrain(x: Machine, me: Local, n: nat)
    requires Settled(x, me) && DistinctSeqs(x.db) && Admitted(x, me) && StuckIds(x.db) == {}
    ensures var y := Ticks(x, me, n);
            && Settled(y, me) && y.db.memories == x.db.memories && Admitted(y, me)
            && StuckIds(y.db) == {} && (n > 0 ==> !y.blocked)
            && |PendingIds(y.db, Milvus)| == Drained(|PendingIds(x.db, Milvus)|, n)
            && |PendingIds(y.db, me.FtsConsumer())| == Drained(|PendingIds(x.db, me.FtsConsumer())|, n)
  {
    hide Settled, PendingIds, StuckIds, Refresh, Tick, Batch;
    if n > 0 {
      TicksDrain(x, me, n - 1);
      var mid := Ticks(x, me, n - 1);
      TickKeeps(mid, me, NO_FAULTS, NO_FAULTS);
      var y := Tick(mid, me, NO_FAULTS, NO_FAULTS);
      RefreshKeeps(mid, me);
      BatchOf(Refresh(mid, me).db, me.FtsConsumer());
      TakesOff(PendingIds(mid.db, me.FtsConsumer()), PendingIds(y.db, me.FtsConsumer()),
               Batch(Refresh(mid, me).db, me.FtsConsumer()));
      var b :| IsNextBatch(mid, b)
               && PendingIds(y.db, Milvus)
                  == PendingIds(mid.db, Milvus) - (Fine(b, NO_FAULTS) - StuckIds(mid.db));
      TakesOff(PendingIds(mid.db, Milvus), PendingIds(y.db, Milvus), b);
    }
  }

  /** Both indexes hold exactly the live canonical records. */
  ghost predicate Synced(x: Machine, me: Local) {
    && (forall id :: id in x.milvus <==> id in x.db.memories && !x.db.memories[id].Deleted())
    && (forall id | id in x.db.memories :: MilvusRight(x, me, id))
    && FileMatches(x.db, x.file)
  }

  lemma NothingOwed(x: Machine, me: Local)
    requires Settled(x, me) && PendingIds(x.db, Milvus) == {} && PendingIds(x.db, me.FtsConsumer()) == {}
    ensures Synced(x, me)
  {
    forall id | id in x.db.memories ensures MilvusRight(x, me, id) && HeldNow(x.db, x.file, id) {
      assert MilvusOwed(x, me, id) && FtsOwed(x, me, id);
      assert id !in PendingIds(x.db, Milvus) && id !in PendingIds(x.db, me.FtsConsumer());
    }
  }

  /** With no writer and no failure, enough ticks leave nothing pending and both indexes equal to
      the canonical records. */
  lemma TicksConverge(x: Machine, me: Local, n: nat)
    requires Settled(x, me) && DistinctSeqs(x.db) && Admitted(x, me) && StuckIds(x.db) == {}
    requires |PendingIds(x.db, Milvus)| <= n * TICK_BATCH
    requires |PendingIds(x.db, me.FtsConsumer())| <= n * TICK_BATCH
    ensures var y := Ticks(x, me, n);
            && PendingIds(y.db, Milvus) == {} && PendingIds(y.db, me.FtsConsumer()) == {}
            && y.db.memories == x.db.memories && Synced(y, me)
  {
    hide Settled, PendingIds, StuckIds, Admitted, Synced;
    TicksDrain(x, me, n);
    NothingOwed(Ticks(x, me, n), me);
  }

  /** A stuck record stays pending through every tick, so the pending count reaches zero exactly
      when no record is stuck. */
  lemma {:induction false} StuckStays(x: Machine, me: Local, n: nat)
    requires Settled(x, me) && DistinctSeqs(x.db) && Admitted(x, me)
    ensures var y := Ticks(x, me, n);
            && Settled(y, me) && y.db.memories == x.db.memories && Admitted(y, me)
            && StuckIds(y.db) == StuckIds(x.db)
  {
    hide Settled, PendingIds, StuckIds, Refresh, Tick, Batch;
    if n > 0 {
      StuckStays(x, me, n - 1);
      TickKeeps(Ticks(x, me, n - 1), me, NO_FAULTS, NO_FAULTS);
    }
  }

  lemma PendingEmptiesIff(x: Machine, me: Local)
    requires Settled(x, me) && DistinctSeqs(x.db) && Admitted(x, me)
    ensures StuckIds(x.db) == {} <==> exists n :: PendingIds(Ticks(x, me, n).db, Milvus) == {}
  {
    if StuckIds(x.db) == {} {
      TicksConverge(x, me, |PendingIds(x.db, Milvus)| + |PendingIds(x.db, me.FtsConsumer())|);
    } else {
      var id :| id in StuckIds(x.db);
      forall n: nat ensures PendingIds(Ticks(x, me, n).db, Milvus) != {} {
        StuckStays(x, me, n);
        assert id in StuckIds(Ticks(x, me, n).db);
        assert id in PendingIds(Ticks(x, me, n).db, Milvus);
      }
    }
  }

  // ---- From a run of the protocol ---------------------------------------------------------

  /** What one server sees of a world. */
  function MachineOf(w: World, sv: string, lagging: bool): Machine
    requires sv in w.files && sv in w.servers
  {
    Machine(w.db, w.milvus, w.files[sv], Refused(w.db.meta, w.servers[sv]), lagging)
  }

  lemma ReachableSettled(w: World, sv: string, fp: Option<Fingerprint>, lagging: bool)
    requires Inv(w) && sv in w.servers && sv in w.files && !Refused(w.db.meta, w.servers[sv])
    ensures var x, me := MachineOf(w, sv, lagging), Local(sv, w.servers[sv], fp);
            Settled(x, me) && StuckIds(x.db) == {} && DistinctSeqs(x.db)
  {
    var x, me := MachineOf(w, sv, lagging), Local(sv, w.servers[sv], fp);
    forall id | id in w.milvus || id in w.files[sv].rows ensures id in w.db.memories {
      ReachableOwned(w, sv, id);
    }
    forall id | id in w.db.memories
      ensures MilvusOwed(x, me, id) && FtsOwed(x, me, id) && !Stuck(x.db, id)
    {
      ReachableOwed(w, sv, fp, lagging, id);
    }
    ReachableSeqs(w);
  }

  lemma ReachableOwned(w: World, sv: string, id: MemoryId)
    requires Inv(w) && sv in w.files && (id in w.milvus || id in w.files[sv].rows)
    ensures id in w.db.memories
  {
    assert MilvusOk(w, id) && FileOk(w, sv, id);
  }

  lemma ReachableSeqs(w: World)
    requires Inv(w)
    ensures DistinctSeqs(w.db)
  {
    hide ModelsOk, SeenOk, LocksOk, AcksOwned, AllMilvus, AllFiles, AllWorkers, Honest, Unique;
    forall a, b | a in w.db.memories && b in w.db.memories && a != b
      ensures w.db.memories[a].changeSeq != w.db.memories[b].changeSeq
    {
      CurrentLogged(w.db, a);
      CurrentLogged(w.db, b);
      assert (a, w.db.memories[a].version) != (b, w.db.memories[b].version);
    }
  }

  lemma ReachableOwed(w: World, sv: string, fp: Option<Fingerprint>, lagging: bool, id: MemoryId)
    requires Inv(w) && sv in w.servers && sv in w.files && !Refused(w.db.meta, w.servers[sv])
    requires id in w.db.memories
    ensures var x, me := MachineOf(w, sv, lagging), Local(sv, w.servers[sv], fp);
            MilvusOwed(x, me, id) && FtsOwed(x, me, id) && !Stuck(x.db, id)
  {
    hide Inv, SequencesUnique, Unique, Honest;
    var x, me := MachineOf(w, sv, lagging), Local(sv, w.servers[sv], fp);
    if (Milvus, id) in w.db.acks {
      AckSoundIn(w, Milvus, id);
    }
    if !IsPending(w.db, Milvus, id) {
      TakenWhenNotPending(w, id);
      ModelMatches(w, sv);
    }
    if !IsPending(w.db, Consumer.Fts(sv), id) { HeldWhenNotPending(w, sv, id); }
    MarkBehind(w, sv, id);
  }

  lemma ModelMatches(w: World, sv: string)
    requires Inv(w) && sv in w.servers && !Refused(w.db.meta, w.servers[sv])
    ensures w.db.meta.generation in w.models ==> w.models[w.db.meta.generation] == w.servers[sv].model
  {}

  lemma MarkBehind(w: World, sv: string, id: MemoryId)
    requires Inv(w) && sv in w.files && id in w.db.memories
    ensures HeldNow(w.db, w.files[sv], id)
            || (id in w.files[sv].marks ==> w.files[sv].marks[id].version < w.db.memories[id].version)
  {
    hide Inv, Valid, Known;
    FileOkIn(w, sv, id);
    InvValid(w);
    CurrentLogged(w.db, id);
  }

  lemma FileOkIn(w: World, sv: string, id: MemoryId)
    requires Inv(w) && sv in w.files
    ensures FileOk(w, sv, id)
  {}

  /** From any world the protocol reaches, ticks of one admitted server with no writer and no
      failure bring Milvus and its own file to exactly the live canonical records. */
  lemma ReachableConverges(ws: seq<World>, es: seq<Event>, i: nat, sv: string,
                           fp: Option<Fingerprint>, n: nat)
    requires Run(ws, es) && i < |ws| && sv in ws[i].servers && sv in ws[i].files
    requires !Refused(ws[i].db.meta, ws[i].servers[sv])
    requires var x, me := MachineOf(ws[i], sv, true), Local(sv, ws[i].servers[sv], fp);
             && Admitted(x, me)
             && |PendingIds(x.db, Milvus)| <= n * TICK_BATCH
             && |PendingIds(x.db, me.FtsConsumer())| <= n * TICK_BATCH
    ensures var x, me := MachineOf(ws[i], sv, true), Local(sv, ws[i].servers[sv], fp);
            Synced(Ticks(x, me, n), me) && Ticks(x, me, n).db.memories == ws[i].db.memories
  {
    hide Settled, PendingIds, StuckIds, Admitted, Synced, Inv, Refused;
    RunInv(ws, es, i);
    ReachableSettled(ws[i], sv, fp, true);
    TicksConverge(MachineOf(ws[i], sv, true), Local(sv, ws[i].servers[sv], fp), n);
  }
}
