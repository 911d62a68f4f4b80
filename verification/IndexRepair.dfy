/** Self-stabilisation of one machine: from any contents of Milvus, of this host's file and of the
    acknowledgement table whose errors show in the ids, versions, generations or content hashes, one
    reconcile puts every difference on the list and ticks remove it; and a rebuild needs no such
    condition. The one thing in the way is a batch filled by records stuck on acknowledgements that
    are ahead in version and behind in generation. */
module IndexRepair {
  import opened Wrappers
  import opened MemoryStore
  import opened StoreInvariants
  import opened IndexProtocol
  import opened IndexGuarantees
  import opened MemoryIndex
  import opened IndexConvergence
  import Fts = MemoryFts

  // ---- When ticks bring Milvus level ------------------------------------------------------

  /** The records of `ids` whose change is older than that of `id`. */
  function Ahead(db: Db, ids: set<MemoryId>, id: MemoryId): set<MemoryId>
    requires id in db.memories
  {
    set o | o in ids && o in db.memories && db.memories[o].changeSeq < db.memories[id].changeSeq
  }

  /** A whole batch of stuck records comes before this one. */
  predicate Starved(db: Db, id: MemoryId)
    requires id in db.memories
  {
    |Ahead(db, StuckIds(db), id)| >= TICK_BATCH
  }

  /** What a tick can still take: pending, neither stuck nor starved. */
  function Movable(db: Db): set<MemoryId> {
    set id | id in PendingIds(db, Milvus) && id in db.memories && id !in StuckIds(db) && !Starved(db, id)
  }

  lemma SubsetCount(a: set<MemoryId>, b: set<MemoryId>)
    requires a <= b
    ensures |a| <= |b|
    ensures |a| == |b| ==> a == b
  {
    assert b == a + (b - a);
  }

  lemma RemoveCount(s: set<MemoryId>, id: MemoryId)
    ensures |s - {id}| == if id in s then |s| - 1 else |s|
  {
    if id !in s { assert s - {id} == s; }
  }

  lemma StarvedSkipped(x: Machine, b: seq<MemoryId>, id: MemoryId)
    requires IsNextBatch(x, b) && id in x.db.memories && id !in StuckIds(x.db) && Starved(x.db, id)
    ensures id !in b
  {
    var ahead := Ahead(x.db, StuckIds(x.db), id);
    DistinctCount(b);
    if ahead <= Members(b) - {id} {
      SubsetCount(ahead, Members(b) - {id});
      RemoveCount(Members(b), id);
    } else {
      var o :| o in ahead && o !in Members(b) - {id};
    }
  }

  lemma BatchMoves(x: Machine, b: seq<MemoryId>)
    requires IsNextBatch(x, b) && Movable(x.db) != {}
    ensures Movable(x.db) * Members(b) != {}
  {
    hide Stuck;
    DistinctCount(b);
    var u :| u in Movable(x.db);
    if u !in b {
      var done := Members(b);
      SubsetCount(done, PendingIds(x.db, Milvus));
      if done <= StuckIds(x.db) {
        assert done <= Ahead(x.db, StuckIds(x.db), u);
        SubsetCount(done, Ahead(x.db, StuckIds(x.db), u));
        assert false;
      } else {
        var o :| o in done && o !in StuckIds(x.db);
        assert Ahead(x.db, StuckIds(x.db), o) <= Ahead(x.db, StuckIds(x.db), u);
        SubsetCount(Ahead(x.db, StuckIds(x.db), o), Ahead(x.db, StuckIds(x.db), u));
        assert o in Movable(x.db) * Members(b);
      }
    } else {
      assert u in Movable(x.db) * Members(b);
    }
  }

  /** The wrong Milvus copies. */
  ghost function Wrong(x: Machine, me: Local): set<MemoryId> {
    set id | id in x.db.memories && !MilvusRight(x, me, id)
  }

  /** One tick: nothing right goes wrong, a starved record is not touched, and unless nothing is
      movable one movable record fewer is. */
  lemma TickMoves(x: Machine, me: Local)
    requires Settled(x, me) && DistinctSeqs(x.db) && Admitted(x, me)
    ensures var y := Tick(x, me, NO_FAULTS, NO_FAULTS);
            && Settled(y, me) && y.db.memories == x.db.memories && Admitted(y, me)
            && StuckIds(y.db) == StuckIds(x.db)
            && Wrong(y, me) <= Wrong(x, me)
            && (forall id | id in Wrong(x, me) && Starved(x.db, id) :: id in Wrong(y, me))
            && Movable(y.db) <= Movable(x.db)
            && (Movable(x.db) != {} ==> |Movable(y.db)| < |Movable(x.db)|)
            && |PendingIds(y.db, me.FtsConsumer())| <= Drained(|PendingIds(x.db, me.FtsConsumer())|, 1)
  {
    hide Settled, PendingIds, StuckIds, Refresh, Tick, Batch, MilvusRight, Starved, MilvusOwed, FtsOwed,
      IsPending, Stuck, AckedNow;
    TickKeeps(x, me, NO_FAULTS, NO_FAULTS);
    var y := Tick(x, me, NO_FAULTS, NO_FAULTS);
    var b :| IsNextBatch(x, b)
             && PendingIds(y.db, Milvus)
                == PendingIds(x.db, Milvus) - (Fine(b, NO_FAULTS) - StuckIds(x.db))
             && CopyFrame(x, y, me, Members(b));
    forall id | id in Wrong(x, me) && Starved(x.db, id) ensures id in Wrong(y, me) {
      WrongIsNotStuck(x, me, id);
      StarvedSkipped(x, b, id);
    }
    assert Fine(b, NO_FAULTS) == Members(b) by {
      assert forall id | id in b :: NO_FAULTS(id) == NoFault;
    }
    SameStarved(x.db, y.db);
    assert Movable(y.db) == Movable(x.db) - Members(b);
    if Movable(x.db) != {} {
      BatchMoves(x, b);
      SubsetCount(Movable(y.db), Movable(x.db));
    }
    RefreshKeeps(x, me);
    BatchOf(Refresh(x, me).db, me.FtsConsumer());
    TakesOff(PendingIds(x.db, me.FtsConsumer()), PendingIds(y.db, me.FtsConsumer()),
             Batch(Refresh(x, me).db, me.FtsConsumer()));
  }

  lemma WrongIsNotStuck(x: Machine, me: Local, id: MemoryId)
    requires Settled(x, me) && id in Wrong(x, me)
    ensures id !in StuckIds(x.db) && id in PendingIds(x.db, Milvus)
  {
    assert MilvusOwed(x, me, id);
  }

  lemma SameStarved(db: Db, db': Db)
    requires db'.memories == db.memories && StuckIds(db') == StuckIds(db)
    ensures forall id | id in db.memories :: Starved(db, id) == Starved(db', id)
  {
    hide StuckIds;
    forall id | id in db.memories ensures Starved(db, id) == Starved(db', id) {
      assert Ahead(db, StuckIds(db), id) == Ahead(db', StuckIds(db'), id);
    }
  }

  lemma {:induction false} TicksMove(x: Machine, me: Local, n: nat)
    requires Settled(x, me) && DistinctSeqs(x.db) && Admitted(x, me)
    ensures var y := Ticks(x, me, n);
            && Settled(y, me) && y.db.memories == x.db.memories && Admitted(y, me)
            && StuckIds(y.db) == StuckIds(x.db)
            && Wrong(y, me) <= Wrong(x, me)
            && (forall id | id in Wrong(x, me) && Starved(x.db, id) :: id in Wrong(y, me))
            && |Movable(y.db)| <= (if |Movable(x.db)| <= n then 0 else |Movable(x.db)| - n)
            && |PendingIds(y.db, me.FtsConsumer())| <= Drained(|PendingIds(x.db, me.FtsConsumer())|, n)
  {
    hide Settled, PendingIds, StuckIds, Admitted, Tick, MilvusRight, Starved, Movable;
    if n > 0 {
      TicksMove(x, me, n - 1);
      TickMoves(Ticks(x, me, n - 1), me);
      SameStarved(x.db, Ticks(x, me, n - 1).db);
    }
  }

  /** Ticks bring both indexes level exactly when no wrong Milvus copy stands behind a batch of
      stuck records. */
  lemma TicksSyncIff(x: Machine, me: Local)
    requires Settled(x, me) && DistinctSeqs(x.db) && Admitted(x, me)
    ensures (exists n :: Synced(Ticks(x, me, n), me))
            <==> forall id | id in Wrong(x, me) :: !Starved(x.db, id)
  {
    if id :| id in Wrong(x, me) && Starved(x.db, id) {
      forall n: nat ensures !Synced(Ticks(x, me, n), me) {
        TicksMove(x, me, n);
        WrongIsNotSynced(Ticks(x, me, n), me, id);
      }
    } else {
      TicksSync(x, me, |Movable(x.db)| + |PendingIds(x.db, me.FtsConsumer())|);
    }
  }

  lemma WrongIsNotSynced(x: Machine, me: Local, id: MemoryId)
    requires id in Wrong(x, me)
    ensures !Synced(x, me)
  {
    hide MilvusRight, FileMatches;
  }

  lemma TicksSync(x: Machine, me: Local, n: nat)
    requires Settled(x, me) && DistinctSeqs(x.db) && Admitted(x, me)
    requires forall id | id in Wrong(x, me) :: !Starved(x.db, id)
    requires n >= |Movable(x.db)| && n * TICK_BATCH >= |PendingIds(x.db, me.FtsConsumer())|
    ensures var y := Ticks(x, me, n); Synced(y, me) && y.db.memories == x.db.memories
    ensures PendingIds(Ticks(x, me, n).db, me.FtsConsumer()) == {}
    ensures forall id | id in PendingIds(Ticks(x, me, n).db, Milvus) ::
              id in x.db.memories && (id in StuckIds(x.db) || Starved(x.db, id))
  {
    hide Settled, PendingIds, StuckIds, Admitted, Ticks, MilvusRight, Starved;
    TicksMove(x, me, n);
    var y := Ticks(x, me, n);
    SameStarved(x.db, y.db);
    PendingRecords(y.db, Milvus);
    assert Movable(y.db) == {};
    assert Wrong(y, me) <= Movable(y.db) by {
      forall id | id in Wrong(y, me) ensures id in Movable(y.db) { WrongIsNotStuck(y, me, id); }
    }
    forall id | id in PendingIds(y.db, Milvus) ensures id in StuckIds(x.db) || Starved(x.db, id) {
      assert id !in Movable(y.db);
    }
    NothingWrong(y, me);
  }

  lemma NothingWrong(x: Machine, me: Local)
    requires Settled(x, me) && Wrong(x, me) == {} && PendingIds(x.db, me.FtsConsumer()) == {}
    ensures Synced(x, me)
  {
    forall id | id in x.db.memories ensures MilvusRight(x, me, id) && HeldNow(x.db, x.file, id) {
      assert id !in Wrong(x, me);
      assert FtsOwed(x, me, id);
      assert id !in PendingIds(x.db, me.FtsConsumer());
    }
  }

  // ---- Reconcile --------------------------------------------------------------------------

  /** Whatever is wrong shows: a live copy with the current version and generation, or the current
      version and content hash, is the right one. Acknowledgements and watermarks are arbitrary. */
  ghost predicate ErrorsShow(x: Machine, me: Local) {
    forall id | id in x.db.memories && !x.db.memories[id].Deleted() ::
      var m := x.db.memories[id];
      && ((id in x.milvus && x.milvus[id].version == m.version
           && x.milvus[id].generation == x.db.meta.generation) ==> MilvusRight(x, me, id))
      && ((id in x.file.rows && x.file.rows[id].version == m.version
           && x.file.rows[id].contentHash == m.contentHash) ==> HeldNow(x.db, x.file, id))
  }

  /** Nothing makes this row go: it is of no record, or of a tombstone that every worker is told has been
      applied. */
  predicate Lingers(db: Db, id: MemoryId) {
    id !in db.memories || (db.memories[id].Deleted() && AckedNow(db, id))
  }

  /** The capped scan saw every row that lingers. */
  ghost predicate SeesDead(x: Machine, scan: map<MemoryId, MilvusRow>) {
    IsScan(x.milvus, scan) && forall id | id in x.milvus && Lingers(x.db, id) :: id in scan
  }

  lemma FullScanSees(x: Machine, scan: map<MemoryId, MilvusRow>)
    requires IsScan(x.milvus, scan) && |x.milvus| <= MILVUS_SCAN_LIMIT
    ensures SeesDead(x, scan)
  {}

  /** Neither half of a reconcile writes a row or the metadata. */
  lemma ReconcileFrame(x: Machine, me: Local, scan: map<MemoryId, MilvusRow>)
    requires !x.blocked
    ensures var y := ReconcileFts(ReconcileMilvus(x, scan, NoFault), me);
            && y.db.memories == x.db.memories && y.db.meta == x.db.meta && y.blocked == x.blocked
            && y.milvus == x.milvus - Strays(x.db, scan)
            && y.file == Fts.Forget(x.file, FtsStale(x.db, x.file) + Strays(x.db, x.file.rows))
            && (forall c, id :: (c, id) in y.db.acks <==>
                  && (c, id) in x.db.acks && !(c == Milvus && id in MilvusStale(x.db, scan))
                  && !(c == me.FtsConsumer() && id in FtsStale(x.db, x.file)))
            && (forall k | k in y.db.acks :: y.db.acks[k] == x.db.acks[k])
  {
    hide MilvusStale, FtsStale, Strays;
    var mid := ReconcileMilvus(x, scan, NoFault);
    SameStale(x.db, mid.db, x.file);
  }

  lemma SameStale(db: Db, db': Db, f: Fts.File)
    requires db'.memories == db.memories
    ensures FtsStale(db', f) == FtsStale(db, f)
    ensures forall held: map<MemoryId, Fts.FtsRow> :: Strays(db', held) == Strays(db, held)
  {
    assert FtsStale(db', f) == FtsStale(db, f);
    forall held: map<MemoryId, Fts.FtsRow> ensures Strays(db', held) == Strays(db, held) {
      assert Strays(db', held) == Strays(db, held);
    }
  }

  lemma ReconcileMilvusAt(x: Machine, y: Machine, me: Local, scan: map<MemoryId, MilvusRow>, id: MemoryId)
    requires ErrorsShow(x, me) && SeesDead(x, scan) && id in x.db.memories
    requires y.db.memories == x.db.memories && y.db.meta == x.db.meta
    requires y.milvus == x.milvus - Strays(x.db, scan)
    requires (Milvus, id) in y.db.acks <==> (Milvus, id) in x.db.acks && id !in MilvusStale(x.db, scan)
    requires (Milvus, id) in y.db.acks ==> y.db.acks[(Milvus, id)] == x.db.acks[(Milvus, id)]
    ensures MilvusOwed(y, me, id)
    ensures MilvusRight(y, me, id) <==> id !in MilvusStale(x.db, x.milvus)
    ensures Stuck(y.db, id) <==> Stuck(x.db, id) && id !in MilvusStale(x.db, scan)
  {
    hide HeldNow;
  }

  lemma ReconcileFtsAt(x: Machine, y: Machine, me: Local, id: MemoryId)
    requires ErrorsShow(x, me) && id in x.db.memories
    requires y.db.memories == x.db.memories
    requires y.file == Fts.Forget(x.file, FtsStale(x.db, x.file) + Strays(x.db, x.file.rows))
    requires (me.FtsConsumer(), id) in y.db.acks ==> id !in FtsStale(x.db, x.file)
    ensures FtsOwed(y, me, id)
  {
    hide MilvusRight, Fts.RowOf;
    assert id !in FtsStale(x.db, x.file) ==> HeldNow(x.db, x.file, id);
  }

  lemma ReconcileAt(x: Machine, me: Local, scan: map<MemoryId, MilvusRow>, id: MemoryId)
    requires !x.blocked && ErrorsShow(x, me) && SeesDead(x, scan) && id in x.db.memories
    ensures var y := ReconcileFts(ReconcileMilvus(x, scan, NoFault), me);
            && MilvusOwed(y, me, id) && FtsOwed(y, me, id)
            && (MilvusRight(y, me, id) <==> id !in MilvusStale(x.db, x.milvus))
            && (Stuck(y.db, id) <==> Stuck(x.db, id) && id !in MilvusStale(x.db, scan))
  {
    hide ReconcileFts, ReconcileMilvus, MilvusRight, MilvusOwed, FtsOwed, Stuck, MilvusStale, FtsStale,
      Strays, ErrorsShow, SeesDead;
    ReconcileFrame(x, me, scan);
    var y := ReconcileFts(ReconcileMilvus(x, scan, NoFault), me);
    ReconcileMilvusAt(x, y, me, scan, id);
    ReconcileFtsAt(x, y, me, id);
  }

  /** After one fault-free reconcile every stray is gone and everything wrong is owed; a record
      stays stuck exactly when it was stuck and its Milvus copy looked right. */
  lemma ReconcileSettles(x: Machine, me: Local, scan: map<MemoryId, MilvusRow>)
    requires Admitted(x, me) && ErrorsShow(x, me) && SeesDead(x, scan)
    ensures var y := Reconcile(x, me, scan, NoFault);
            && Settled(y, me) && Admitted(y, me) && y.db.memories == x.db.memories
            && Wrong(y, me) == MilvusStale(x.db, x.milvus)
            && StuckIds(y.db) == StuckIds(x.db) - MilvusStale(x.db, scan)
  {
    hide ReconcileFts, ReconcileMilvus, MilvusRight, MilvusOwed, FtsOwed, Stuck, ErrorsShow, Claim, Refused;
    var x1 := Refresh(x, me);
    RefreshKeeps(x, me);
    RefreshShows(x, me, scan);
    ReconcileFrame(x1, me, scan);
    var y := Reconcile(x, me, scan, NoFault);
    RefreshKeeps(y, me);
    RefreshAgain(x, y, me);
    forall id | id in x.db.memories
      ensures MilvusOwed(y, me, id) && FtsOwed(y, me, id)
      ensures MilvusRight(y, me, id) <==> id !in MilvusStale(x.db, x.milvus)
      ensures Stuck(y.db, id) <==> Stuck(x.db, id) && id !in MilvusStale(x.db, scan)
    {
      ReconcileAt(x1, me, scan, id);
      assert id in StuckIds(x1.db) <==> id in StuckIds(x.db);
    }
  }

  lemma RefreshShows(x: Machine, me: Local, scan: map<MemoryId, MilvusRow>)
    requires ErrorsShow(x, me) && SeesDead(x, scan)
    ensures var x1 := Refresh(x, me);
            && ErrorsShow(x1, me) && SeesDead(x1, scan)
            && MilvusStale(x1.db, scan) == MilvusStale(x.db, scan)
            && MilvusStale(x1.db, x.milvus) == MilvusStale(x.db, x.milvus)
  {
    var x1 := Refresh(x, me);
    forall id | id in x.db.memories ensures MilvusRight(x1, me, id) == MilvusRight(x, me, id) {}
  }

  lemma RefreshAgain(x: Machine, y: Machine, me: Local)
    requires y.db.meta == Refresh(x, me).db.meta
    ensures Admitted(y, me) == Admitted(x, me)
  {}

  /** What a caller can check before the call: no record Milvus shows as wrong comes after a batch
      of records that stay stuck. */
  predicate Repairable(db: Db, milvus: map<MemoryId, MilvusRow>, scan: map<MemoryId, MilvusRow>) {
    forall id | id in MilvusStale(db, milvus) ::
      |Ahead(db, StuckIds(db) - MilvusStale(db, scan), id)| < TICK_BATCH
  }

  lemma StarvedMeans(db: Db, id: MemoryId)
    requires id in db.memories
    ensures Starved(db, id) <==> |Ahead(db, StuckIds(db), id)| >= TICK_BATCH
  {
    hide StuckIds;
  }

  /** Self-stabilisation: one reconcile with no concurrent writer, then ticks, make both indexes
      equal the live canonical records, strays removed, exactly when the machine is repairable. */
  lemma ReconcileThenTicks(x: Machine, me: Local, scan: map<MemoryId, MilvusRow>)
    requires Admitted(x, me) && ErrorsShow(x, me) && SeesDead(x, scan) && DistinctSeqs(x.db)
    ensures var y := Reconcile(x, me, scan, NoFault);
            (exists n :: Synced(Ticks(y, me, n), me)) <==> Repairable(x.db, x.milvus, scan)
  {
    hide Settled, Admitted, ErrorsShow, SeesDead, Reconcile, Synced, StuckIds, MilvusStale, MilvusRight, Starved;
    ReconcileSettles(x, me, scan);
    var y := Reconcile(x, me, scan, NoFault);
    TicksSyncIff(y, me);
    forall id | id in Wrong(y, me)
      ensures !Starved(y.db, id) <==> |Ahead(x.db, StuckIds(x.db) - MilvusStale(x.db, scan), id)| < TICK_BATCH
    {
      StarvedMeans(y.db, id);
      assert Ahead(y.db, StuckIds(y.db), id) == Ahead(x.db, StuckIds(x.db) - MilvusStale(x.db, scan), id);
    }
  }

  /** With no record stuck, `n` batches are enough and nothing is left pending. */
  lemma ReconcileThenTicksDrain(x: Machine, me: Local, scan: map<MemoryId, MilvusRow>, n: nat)
    requires Admitted(x, me) && ErrorsShow(x, me) && SeesDead(x, scan) && DistinctSeqs(x.db)
    requires StuckIds(x.db) <= MilvusStale(x.db, scan) && |x.db.memories| <= n * TICK_BATCH
    ensures var y := Ticks(Reconcile(x, me, scan, NoFault), me, n);
            && Synced(y, me) && y.db.memories == x.db.memories
            && PendingIds(y.db, Milvus) == {} && PendingIds(y.db, me.FtsConsumer()) == {}
  {
    hide Settled, Admitted, ErrorsShow, SeesDead, Reconcile, Synced, StuckIds, MilvusStale;
    ReconcileSettles(x, me, scan);
    var y := Reconcile(x, me, scan, NoFault);
    assert StuckIds(y.db) == {};
    SubsetCount(PendingIds(y.db, Milvus), x.db.memories.Keys);
    SubsetCount(PendingIds(y.db, me.FtsConsumer()), x.db.memories.Keys);
    TicksConverge(y, me, n);
  }

  const LOST := Memory("u", "p", 0, "a", "fact", Active, None, Sha256("t"), "t", map[], [], {}, "", 0, None, 2, 1)

  /** A machine that named `me`'s model, whose only record is acknowledged everywhere and held nowhere,
      and whose Milvus holds a row of no record. */
  function Broken(me: Local, stray: MilvusRow): Machine {
    var meta := Meta(Some(me.server.model.name), Some(me.server.model.dim), None, 1);
    var acks := map[(Milvus, 0) := Ack(2, 1, false), (me.FtsConsumer(), 0) := Ack(2, 1, false)];
    Machine(Db(map[0 := LOST], map[], acks, meta, 2), map[1 := stray], Fts.File(map[], map[0 := Fts.Mark(9, false)]),
            false, false)
  }

  /** The theorem at work: nothing is pending there although both indexes are wrong; one reconcile and
      one tick repair them. */
  lemma BrokenRepairs(me: Local, stray: MilvusRow)
    requires me.claimable.None?
    ensures var x := Broken(me, stray);
            && PendingIds(x.db, Milvus) == {} && PendingIds(x.db, me.FtsConsumer()) == {} && !Synced(x, me)
            && Synced(Ticks(Reconcile(x, me, x.milvus, NoFault), me, 1), me)
  {
    hide Synced, Ticks, Reconcile;
    var x := Broken(me, stray);
    assert x.db.memories.Keys == {0} && |x.db.memories| == 1;
    assert !Synced(x, me) by { WrongIsNotSynced(x, me, 0); }
    ReconcileThenTicksDrain(x, me, x.milvus, 1);
  }

  // ---- A batch of stuck records -----------------------------------------------------------

  /** Records 0 to 256, each of one version. The first 256 are in Milvus, acknowledged at a version ahead
      and a generation behind; the last one is not in Milvus, and nothing acknowledged it. */
  function Note(id: MemoryId): Memory { LOST.(version := 1, changeSeq := id) }

  function Jammed(me: Local): Machine {
    var meta := Meta(Some(me.server.model.name), Some(me.server.model.dim), None, 2);
    var acks := map k: (Consumer, MemoryId) | k in JammedKeys() :: Ack(2, 1, false);
    var rows := map id | 0 <= id < TICK_BATCH :: MilvusRowOf(Note(id), 2, Embedding(me.server.model, "t"));
    Machine(Db(map id | 0 <= id <= TICK_BATCH :: Note(id), map[], acks, meta, TICK_BATCH + 1), rows, Fts.EMPTY, false, false)
  }

  function JammedKeys(): set<(Consumer, MemoryId)> { set id: MemoryId | id < TICK_BATCH :: (Milvus, id) }

  function UpTo(n: nat): set<MemoryId> { if n == 0 then {} else UpTo(n - 1) + {n - 1} }

  lemma {:induction false} UpToIs(n: nat)
    ensures |UpTo(n)| == n && forall id: MemoryId :: id in UpTo(n) <==> id < n
  {
    if n > 0 { UpToIs(n - 1); }
  }

  /** No number of ticks brings the last one into Milvus. */
  lemma JammedStarves(me: Local)
    requires me.claimable.None?
    ensures forall n :: !Synced(Ticks(Jammed(me), me, n), me)
  {
    hide Ticks, Synced, UpTo;
    var x := Jammed(me);
    JammedStuck(me);
    assert Starved(x.db, TICK_BATCH) by {
      UpToIs(TICK_BATCH);
      assert Ahead(x.db, StuckIds(x.db), TICK_BATCH) == UpTo(TICK_BATCH);
    }
    assert TICK_BATCH in Wrong(x, me);
    TicksSyncIff(x, me);
  }

  lemma JammedStuck(me: Local)
    requires me.claimable.None?
    ensures var x := Jammed(me);
            && Settled(x, me) && DistinctSeqs(x.db) && Admitted(x, me)
            && StuckIds(x.db) == UpTo(TICK_BATCH)
  {
    hide UpTo;
    var x := Jammed(me);
    UpToIs(TICK_BATCH);
    forall id | id in x.db.memories
      ensures MilvusOwed(x, me, id) && FtsOwed(x, me, id) && (Stuck(x.db, id) <==> id < TICK_BATCH)
    {
      assert (Milvus, id) in x.db.acks <==> id < TICK_BATCH;
      assert (me.FtsConsumer(), id) !in x.db.acks;
    }
  }

  // ---- What reconcile cannot see ----------------------------------------------------------

  lemma OneLingers(x: Machine, me: Local, id: MemoryId, fault: Fault, dead: MemoryId)
    requires dead in x.milvus && Lingers(x.db, dead)
    ensures var y := FtsOne(x, me, id, fault).0;
            dead in y.milvus && Lingers(y.db, dead) && y.db.memories == x.db.memories
    ensures var y := MilvusOne(x, me, id, fault).0;
            dead in y.milvus && Lingers(y.db, dead) && y.db.memories == x.db.memories
  {
    hide Refused, Fts.Apply, MilvusRowOf;
  }

  lemma {:induction false} PassLingers(x: Machine, me: Local, ids: seq<MemoryId>, faults: Faults, dead: MemoryId)
    requires dead in x.milvus && Lingers(x.db, dead)
    ensures var y := FtsAll(x, me, ids, faults);
            dead in y.milvus && Lingers(y.db, dead) && y.db.memories == x.db.memories
    ensures var y := MilvusAll(x, me, ids, faults);
            dead in y.milvus && Lingers(y.db, dead) && y.db.memories == x.db.memories
  {
    hide FtsOne, MilvusOne, Lingers;
    if ids != [] {
      var front, id := ids[..|ids| - 1], ids[|ids| - 1];
      PassLingers(x, me, front, faults, dead);
      OneLingers(FtsAll(x, me, front, faults), me, id, faults(id), dead);
      OneLingers(MilvusAll(x, me, front, faults), me, id, faults(id), dead);
    }
  }

  lemma RefreshLingers(x: Machine, me: Local, dead: MemoryId)
    ensures Lingers(Refresh(x, me).db, dead) == Lingers(x.db, dead)
  {
    hide Refused;
  }

  lemma ReconcileLingers(x: Machine, me: Local, scan: map<MemoryId, MilvusRow>, dead: MemoryId)
    requires dead in x.milvus && dead !in scan && Lingers(x.db, dead)
    ensures var y := Reconcile(x, me, scan, NoFault); dead in y.milvus && Lingers(y.db, dead)
  {
    hide Claim, Refused, FtsStale;
    RefreshLingers(x, me, dead);
    var x1 := Refresh(x, me);
    assert dead !in MilvusStale(x1.db, scan) && dead !in Strays(x1.db, scan);
  }

  lemma LingersNotSynced(x: Machine, me: Local, dead: MemoryId)
    requires dead in x.milvus && Lingers(x.db, dead)
    ensures !Synced(x, me)
  {
    hide MilvusRight, FileMatches;
  }

  /** A row that lingers and that the capped scan did not return stays in Milvus for good, be it a stray or
      the row of an acknowledged tombstone. */
  lemma {:induction false} UnseenStays(x: Machine, me: Local, scan: map<MemoryId, MilvusRow>, dead: MemoryId, n: nat)
    requires dead in x.milvus && dead !in scan && Lingers(x.db, dead)
    ensures var y := Ticks(Reconcile(x, me, scan, NoFault), me, n);
            dead in y.milvus && Lingers(y.db, dead) && !Synced(y, me)
  {
    hide FtsAll, MilvusAll, Refused, Claim, Batch, PendingIds, Lingers, Reconcile, Synced;
    var y := Reconcile(x, me, scan, NoFault);
    if n == 0 {
      ReconcileLingers(x, me, scan, dead);
    } else {
      UnseenStays(x, me, scan, dead, n - 1);
      var z := Ticks(y, me, n - 1);
      RefreshLingers(z, me, dead);
      var x1 := Refresh(z, me);
      var first := Batch(x1.db, me.FtsConsumer());
      PassLingers(x1, me, first, NO_FAULTS, dead);
      var x2 := FtsAll(x1, me, first, NO_FAULTS);
      PassLingers(x2, me, Batch(x2.db, Milvus), NO_FAULTS, dead);
    }
    LingersNotSynced(Ticks(y, me, n), me, dead);
  }

  /** Self-stabilisation, whatever the capped scan returned: reconcile and ticks reach both indexes equal to
      the live canonical records exactly when the scan saw every row that lingers and no record Milvus shows
      as wrong comes after a batch of records that stay stuck. */
  lemma RepairsIff(x: Machine, me: Local, scan: map<MemoryId, MilvusRow>)
    requires Admitted(x, me) && ErrorsShow(x, me) && IsScan(x.milvus, scan) && DistinctSeqs(x.db)
    ensures var y := Reconcile(x, me, scan, NoFault);
            (exists n :: Synced(Ticks(y, me, n), me)) <==> SeesDead(x, scan) && Repairable(x.db, x.milvus, scan)
  {
    hide Admitted, ErrorsShow, Reconcile, Synced, Repairable, Lingers, IsScan, Ticks;
    if SeesDead(x, scan) {
      ReconcileThenTicks(x, me, scan);
    } else {
      var dead :| dead in x.milvus && Lingers(x.db, dead) && dead !in scan;
      forall n ensures !Synced(Ticks(Reconcile(x, me, scan, NoFault), me, n), me) {
        UnseenStays(x, me, scan, dead, n);
      }
    }
  }

  /** A collection the scan limit does not cut: only the stuck records can stand in the way. */
  lemma SmallRepairsIff(x: Machine, me: Local, scan: map<MemoryId, MilvusRow>)
    requires Admitted(x, me) && ErrorsShow(x, me) && IsScan(x.milvus, scan) && DistinctSeqs(x.db)
    requires |x.milvus| <= MILVUS_SCAN_LIMIT
    ensures scan == x.milvus
    ensures var y := Reconcile(x, me, scan, NoFault);
            (exists n :: Synced(Ticks(y, me, n), me)) <==> Repairable(x.db, x.milvus, x.milvus)
  {
    hide Admitted, ErrorsShow, Reconcile, Synced, Repairable, Lingers, Ticks;
    FullScanSees(x, scan);
    RepairsIff(x, me, scan);
  }

  // ---- Rebuild ----------------------------------------------------------------------------

  /** Both copies of `id` are right and acknowledged. */
  ghost predicate Done(x: Machine, me: Local, id: MemoryId)
    requires id in x.db.memories
  {
    MilvusRight(x, me, id) && HeldNow(x.db, x.file, id)
    && !IsPending(x.db, Milvus, id) && !IsPending(x.db, me.FtsConsumer(), id)
  }

  /** Nothing is known of `id` but perhaps an old Milvus row. */
  ghost predicate Untouched(x: Machine, me: Local, id: MemoryId)
    requires id in x.db.memories
  {
    && (Milvus, id) !in x.db.acks && (me.FtsConsumer(), id) !in x.db.acks
    && id !in x.file.rows && id !in x.file.marks
  }

  lemma BothOneAt(x: Machine, me: Local, id: MemoryId, o: MemoryId)
    requires !x.blocked && !Refused(x.db.meta, me.server) && id in x.db.memories && o in x.db.memories
    requires Untouched(x, me, id)
    ensures var y := FtsOne(MilvusOne(x, me, id, NoFault).0, me, id, NoFault).0;
            && SameRows(x, y) && Done(y, me, id)
            && y.milvus.Keys <= x.milvus.Keys + {id} && y.file.rows.Keys <= x.file.rows.Keys + {id}
            && (o != id && Done(x, me, o) ==> Done(y, me, o))
            && (o != id && Untouched(x, me, o) ==> Untouched(y, me, o))
  {
    hide Refused, MilvusRowOf, Fts.RowOf;
  }

  lemma {:induction false} BothAllDone(x: Machine, me: Local, ids: seq<MemoryId>)
    requires !x.blocked && !Refused(x.db.meta, me.server)
    requires forall id | id in ids :: id in x.db.memories
    requires forall i, j | 0 <= i < j < |ids| :: ids[i] != ids[j]
    requires forall id | id in x.db.memories :: Untouched(x, me, id)
    ensures var y := BothAll(x, me, ids);
            && SameRows(x, y) && y.milvus.Keys <= x.milvus.Keys + Members(ids)
            && y.file.rows.Keys <= x.file.rows.Keys + Members(ids)
            && forall id | id in x.db.memories ::
                 if id in ids then Done(y, me, id) else Untouched(y, me, id)
  {
    hide Refused, MilvusOne, FtsOne, Done, Untouched;
    if ids != [] {
      var front, id := ids[..|ids| - 1], ids[|ids| - 1];
      BothAllDone(x, me, front);
      var mid := BothAll(x, me, front);
      assert ids == front + [id];
      assert id !in front;
      BothOneAt(mid, me, id, id);
      forall o | o in x.db.memories { BothOneAt(mid, me, id, o); }
    }
  }

  /** From any contents at all, errors showing or not, a rebuild whose scan saw every stray leaves both
      indexes equal to the live canonical records and nothing pending. */
  lemma RebuildSyncs(x: Machine, me: Local, scan: map<MemoryId, MilvusRow>)
    requires Admitted(x, me) && IsScan(x.milvus, scan) && Strays(x.db, x.milvus) <= scan.Keys && DistinctSeqs(x.db)
    ensures var y := Rebuild(x, me, scan);
            && Synced(y, me) && y.db.memories == x.db.memories
            && PendingIds(y.db, Milvus) == {} && PendingIds(y.db, me.FtsConsumer()) == {}
  {
    hide Claim, Refused, InSequence, Done, Untouched, BothAll, ResetAcks, PendingIds, Synced, IsScan;
    var x1 := Refresh(x, me);
    var x3 := Cleared(x1, me, scan);
    var ids := InSequence(x1.db, x1.db.memories.Keys);
    ListsAll(x1.db);
    ClearedUntouched(x1, me, scan);
    BothAllDone(x3, me, ids);
    AllDone(BothAll(x3, me, ids), me);
  }

  lemma {:induction false} BothLingers(x: Machine, me: Local, ids: seq<MemoryId>, stray: MemoryId)
    requires stray in x.milvus && stray !in x.db.memories
    ensures var y := BothAll(x, me, ids); stray in y.milvus && y.db.memories == x.db.memories
  {
    hide FtsOne, MilvusOne;
    if ids != [] {
      var front, id := ids[..|ids| - 1], ids[|ids| - 1];
      BothLingers(x, me, front, stray);
      var y := BothAll(x, me, front);
      OneLingers(y, me, id, NoFault, stray);
      OneLingers(MilvusOne(y, me, id, NoFault).0, me, id, NoFault, stray);
    }
  }

  /** And exactly then. */
  lemma RebuildSyncsIff(x: Machine, me: Local, scan: map<MemoryId, MilvusRow>)
    requires Admitted(x, me) && IsScan(x.milvus, scan) && DistinctSeqs(x.db)
    ensures Synced(Rebuild(x, me, scan), me) <==> Strays(x.db, x.milvus) <= scan.Keys
  {
    hide Claim, Refused, InSequence, BothAll, Synced;
    if Strays(x.db, x.milvus) <= scan.Keys {
      RebuildSyncs(x, me, scan);
    } else {
      var stray :| stray in Strays(x.db, x.milvus) && stray !in scan;
      var x1 := Refresh(x, me);
      var x3 := Cleared(x1, me, scan);
      var ids := InSequence(x1.db, x1.db.memories.Keys);
      BothLingers(x3, me, ids, stray);
      LingersNotSynced(BothAll(x3, me, ids), me, stray);
    }
  }

  /** Everything forgotten, before the replay. */
  function Cleared(x: Machine, me: Local, scan: map<MemoryId, MilvusRow>): Machine {
    x.(db := ResetAcks(ResetAcks(x.db, None, Some(Milvus)), None, Some(me.FtsConsumer())),
       milvus := x.milvus - Dead(x.db, scan), file := Fts.EMPTY)
  }

  lemma ClearedUntouched(x: Machine, me: Local, scan: map<MemoryId, MilvusRow>)
    requires Strays(x.db, x.milvus) <= scan.Keys
    ensures var y := Cleared(x, me, scan);
            && y.db.memories == x.db.memories && y.db.meta == x.db.meta
            && y.milvus.Keys <= x.db.memories.Keys
            && forall id | id in x.db.memories :: Untouched(y, me, id)
  {}

  lemma ListsAll(db: Db)
    requires DistinctSeqs(db)
    ensures var s := InSequence(db, db.memories.Keys);
            && (forall id :: id in s <==> id in db.memories)
            && (forall i, j | 0 <= i < j < |s| :: s[i] != s[j])
  {
    InSequenceLists(db, db.memories.Keys);
  }

  lemma AllDone(x: Machine, me: Local)
    requires forall id | id in x.db.memories :: Done(x, me, id)
    requires x.milvus.Keys <= x.db.memories.Keys && x.file.rows.Keys <= x.db.memories.Keys
    ensures Synced(x, me) && PendingIds(x.db, Milvus) == {} && PendingIds(x.db, me.FtsConsumer()) == {}
  {
    forall id | id in x.db.memories
      ensures MilvusRight(x, me, id) && HeldNow(x.db, x.file, id)
      ensures !IsPending(x.db, Milvus, id) && !IsPending(x.db, me.FtsConsumer(), id)
    {
      assert Done(x, me, id);
    }
  }

  // ---- The file alone ---------------------------------------------------------------------

  /** The file's half of `Settled`. */
  ghost predicate FtsSettled(x: Machine, me: Local) {
    && x.file.rows.Keys <= x.db.memories.Keys
    && forall id | id in x.db.memories :: FtsOwed(x, me, id)
  }

  /** What a Milvus pass, a Milvus reconcile or a claim leaves alone. */
  ghost predicate SameFts(x: Machine, y: Machine, me: Local) {
    && y.db.memories == x.db.memories && y.file == x.file
    && (forall id :: (me.FtsConsumer(), id) in y.db.acks <==> (me.FtsConsumer(), id) in x.db.acks)
    && (forall id | (me.FtsConsumer(), id) in y.db.acks ::
          y.db.acks[(me.FtsConsumer(), id)] == x.db.acks[(me.FtsConsumer(), id)])
  }

  lemma SameFtsSettled(x: Machine, y: Machine, me: Local)
    requires SameFts(x, y, me)
    ensures FtsSettled(x, me) == FtsSettled(y, me)
    ensures PendingIds(y.db, me.FtsConsumer()) == PendingIds(x.db, me.FtsConsumer())
  {
    forall id | id in x.db.memories
      ensures FtsOwed(x, me, id) == FtsOwed(y, me, id)
      ensures IsPending(y.db, me.FtsConsumer(), id) == IsPending(x.db, me.FtsConsumer(), id)
    {}
  }

  lemma MilvusOneSameFts(x: Machine, me: Local, id: MemoryId, fault: Fault)
    ensures SameFts(x, MilvusOne(x, me, id, fault).0, me)
  {
    hide Refused, IsAcked, MilvusRowOf;
  }

  lemma {:induction false} MilvusAllSameFts(x: Machine, me: Local, ids: seq<MemoryId>, faults: Faults)
    ensures SameFts(x, MilvusAll(x, me, ids, faults), me)
  {
    hide MilvusOne;
    if ids != [] {
      MilvusAllSameFts(x, me, ids[..|ids| - 1], faults);
      MilvusOneSameFts(MilvusAll(x, me, ids[..|ids| - 1], faults), me, ids[|ids| - 1], faults(ids[|ids| - 1]));
    }
  }

  lemma FtsOwedAt(x: Machine, me: Local, id: MemoryId, o: MemoryId)
    requires id in x.db.memories && o in x.db.memories && FtsOwed(x, me, o)
    ensures var y := FtsOne(x, me, id, NoFault).0;
            && SameRows(x, y) && y.file.rows.Keys <= x.file.rows.Keys + {id}
            && FtsOwed(y, me, o)
            && (IsPending(y.db, me.FtsConsumer(), o) <==> IsPending(x.db, me.FtsConsumer(), o) && o != id)
  {
    hide Fts.RowOf;
    if o != id { assert HeldNow(x.db, x.file, o) ==> HeldNow(x.db, FtsOne(x, me, id, NoFault).0.file, o); }
  }

  lemma {:induction false} FtsAllTakes(x: Machine, me: Local, ids: seq<MemoryId>)
    requires FtsSettled(x, me) && forall id | id in ids :: id in x.db.memories
    ensures var y := FtsAll(x, me, ids, NO_FAULTS);
            && FtsSettled(y, me) && SameRows(x, y)
            && PendingIds(y.db, me.FtsConsumer()) == PendingIds(x.db, me.FtsConsumer()) - Members(ids)
  {
    hide FtsOne, FtsOwed, IsPending;
    if ids != [] {
      var front, id := ids[..|ids| - 1], ids[|ids| - 1];
      FtsAllTakes(x, me, front);
      var mid := FtsAll(x, me, front, NO_FAULTS);
      assert ids == front + [id];
      FtsOwedAt(mid, me, id, id);
      forall o | o in x.db.memories { FtsOwedAt(mid, me, id, o); }
      var y := FtsAll(x, me, ids, NO_FAULTS);
      assert PendingIds(y.db, me.FtsConsumer()) == PendingIds(mid.db, me.FtsConsumer()) - {id};
      assert Members(ids) == Members(front) + {id};
    }
  }

  /** Ticks whose Milvus calls may all fail. */
  ghost function FtsTicks(x: Machine, me: Local, milvus: seq<Faults>): Machine {
    if milvus == [] then x
    else Tick(FtsTicks(x, me, milvus[..|milvus| - 1]), me, NO_FAULTS, milvus[|milvus| - 1])
  }

  lemma FtsTick(x: Machine, me: Local, faults: Faults)
    requires FtsSettled(x, me) && DistinctSeqs(x.db)
    ensures var y := Tick(x, me, NO_FAULTS, faults);
            && FtsSettled(y, me) && y.db.memories == x.db.memories
            && |PendingIds(y.db, me.FtsConsumer())| == Drained(|PendingIds(x.db, me.FtsConsumer())|, 1)
  {
    hide FtsSettled, PendingIds, FtsAll, MilvusAll, Refused, Claim, Batch;
    var x1 := Refresh(x, me);
    assert SameFts(x, x1, me);
    SameFtsSettled(x, x1, me);
    var first := Batch(x1.db, me.FtsConsumer());
    BatchOf(x1.db, me.FtsConsumer());
    PendingRecords(x1.db, me.FtsConsumer());
    FtsAllTakes(x1, me, first);
    var x2 := FtsAll(x1, me, first, NO_FAULTS);
    assert Fine(first, NO_FAULTS) == Members(first) by {
      assert forall id | id in first :: NO_FAULTS(id) == NoFault;
    }
    TakesOff(PendingIds(x1.db, me.FtsConsumer()), PendingIds(x2.db, me.FtsConsumer()), first);
    var y := Tick(x, me, NO_FAULTS, faults);
    MilvusAllSameFts(x2, me, Batch(x2.db, Milvus), faults);
    assert SameFts(x2, y, me);
    SameFtsSettled(x2, y, me);
  }

  lemma {:induction false} FtsTicksDrain(x: Machine, me: Local, milvus: seq<Faults>)
    requires FtsSettled(x, me) && DistinctSeqs(x.db)
    ensures var y := FtsTicks(x, me, milvus);
            && FtsSettled(y, me) && y.db.memories == x.db.memories
            && |PendingIds(y.db, me.FtsConsumer())| == Drained(|PendingIds(x.db, me.FtsConsumer())|, |milvus|)
  {
    hide FtsSettled, PendingIds, Tick;
    if milvus != [] {
      FtsTicksDrain(x, me, milvus[..|milvus| - 1]);
      FtsTick(FtsTicks(x, me, milvus[..|milvus| - 1]), me, milvus[|milvus| - 1]);
    }
  }

  lemma ReconcileFtsSettles(x: Machine, me: Local, scan: map<MemoryId, MilvusRow>, fault: Fault)
    requires ErrorsShow(x, me)
    ensures var y := Reconcile(x, me, scan, fault);
            FtsSettled(y, me) && y.db.memories == x.db.memories
  {
    hide MilvusStale, Refused, Claim, Fts.RowOf, MilvusRight;
    var y := Reconcile(x, me, scan, fault);
    forall id | id in x.db.memories ensures FtsOwed(y, me, id) {
      assert id !in FtsStale(x.db, x.file) ==> HeldNow(x.db, x.file, id);
    }
  }

  /** A failing or refused Milvus holds nothing back here: after a reconcile whose Milvus half may
      have failed anywhere and ticks whose Milvus calls may all fail, this host's file holds exactly
      the live canonical records. */
  lemma FileRepairsAlone(x: Machine, me: Local, scan: map<MemoryId, MilvusRow>, fault: Fault,
                         milvus: seq<Faults>)
    requires ErrorsShow(x, me) && DistinctSeqs(x.db) && |x.db.memories| <= |milvus| * TICK_BATCH
    ensures var y := FtsTicks(Reconcile(x, me, scan, fault), me, milvus);
            && FileMatches(y.db, y.file) && y.db.memories == x.db.memories
            && PendingIds(y.db, me.FtsConsumer()) == {}
  {
    hide ErrorsShow, Reconcile, Tick, FtsOwed;
    ReconcileFtsSettles(x, me, scan, fault);
    var x1 := Reconcile(x, me, scan, fault);
    SubsetCount(PendingIds(x1.db, me.FtsConsumer()), x.db.memories.Keys);
    FtsTicksDrain(x1, me, milvus);
    FtsNothingOwed(FtsTicks(x1, me, milvus), me);
  }

  lemma FtsNothingOwed(x: Machine, me: Local)
    requires FtsSettled(x, me) && PendingIds(x.db, me.FtsConsumer()) == {}
    ensures FileMatches(x.db, x.file)
  {
    forall id | id in x.db.memories ensures HeldNow(x.db, x.file, id) {
      assert FtsOwed(x, me, id);
      assert id !in PendingIds(x.db, me.FtsConsumer());
    }
  }
}
