/** One machine's side of the sync: `tick`, `reconcile` and `rebuild`, statement by statement on the
    store, the Milvus collection and this host's FTS file, while no other writer runs. Any call on a
    record may fail, before its index write or between the write and the acknowledgement. */
module MemoryIndex {
  import opened Wrappers
  import opened MemoryStore
  import opened IndexProtocol
  import Fts = MemoryFts

  const TICK_BATCH := 256
  const MILVUS_SCAN_LIMIT := 16384

  datatype Machine = Machine(db: Db, milvus: map<MemoryId, MilvusRow>, file: Fts.File,
                             blocked: bool, lagging: bool)

  /** Where the calls for one record raise, if they do. */
  datatype Fault = NoFault | BeforeWrite | AfterWrite

  type Faults = MemoryId -> Fault

  const NO_FAULTS: Faults := _ => NoFault

  /** This machine: its host name, its model, and the fingerprint it may claim for it. */
  datatype Local = Local(host: string, server: Server, claimable: Option<Fingerprint>)
  {
    function FtsConsumer(): Consumer { Consumer.Fts(host) }
  }

  // ---- The operations as functions --------------------------------------------------------

  function Refresh(x: Machine, me: Local): Machine {
    var meta := Claim(x.db.meta, me.server.model.name, me.server.model.dim, me.claimable);
    x.(db := x.db.(meta := meta), blocked := Refused(meta, me.server))
  }

  function RowAck(x: Machine, id: MemoryId): Ack
    requires id in x.db.memories
  {
    Ack(x.db.memories[id].version, x.db.meta.generation, x.db.memories[id].Deleted())
  }

  function FtsOne(x: Machine, me: Local, id: MemoryId, fault: Fault): (Machine, bool) {
    if fault == BeforeWrite || id !in x.db.memories then (x, false)
    else
      var y := x.(file := Fts.Apply(x.file, id, x.db.memories[id]).0);
      if fault == AfterWrite then (y, false)
      else (y.(db := AckTx(y.db, me.FtsConsumer(), id, RowAck(x, id)).0), true)
  }

  function MilvusOne(x: Machine, me: Local, id: MemoryId, fault: Fault): (Machine, bool) {
    if x.blocked || fault == BeforeWrite || id !in x.db.memories then (x, false)
    else
      var row, gen := x.db.memories[id], x.db.meta.generation;
      if IsAcked(x.db, Milvus, id, row.version, gen) then (x, true)
      else if !row.Deleted() && Refused(x.db.meta, me.server) then (x.(blocked := true), false)
      else
        var y := x.(milvus := if row.Deleted() then x.milvus - {id}
                              else x.milvus[id := MilvusRowOf(row, gen,
                                                    Embedding(me.server.model, row.text))]);
        if fault == AfterWrite then (y, false)
        else (y.(db := AckTx(y.db, Milvus, id, RowAck(x, id)).0), true)
  }

  function FtsAll(x: Machine, me: Local, ids: seq<MemoryId>, faults: Faults): Machine {
    if ids == [] then x
    else
      var n := |ids| - 1;
      FtsOne(FtsAll(x, me, ids[..n], faults), me, ids[n], faults(ids[n])).0
  }

  function MilvusAll(x: Machine, me: Local, ids: seq<MemoryId>, faults: Faults): Machine {
    if ids == [] then x
    else
      var n := |ids| - 1;
      MilvusOne(MilvusAll(x, me, ids[..n], faults), me, ids[n], faults(ids[n])).0
  }

  /** How many of the calls succeed. */
  function FtsOks(x: Machine, me: Local, ids: seq<MemoryId>, faults: Faults): nat {
    if ids == [] then 0
    else
      var n := |ids| - 1;
      FtsOks(x, me, ids[..n], faults)
      + if FtsOne(FtsAll(x, me, ids[..n], faults), me, ids[n], faults(ids[n])).1 then 1 else 0
  }

  function MilvusOks(x: Machine, me: Local, ids: seq<MemoryId>, faults: Faults): nat {
    if ids == [] then 0
    else
      var n := |ids| - 1;
      MilvusOks(x, me, ids[..n], faults)
      + if MilvusOne(MilvusAll(x, me, ids[..n], faults), me, ids[n], faults(ids[n])).1 then 1 else 0
  }

  /** The next records a consumer takes, oldest change first. */
  ghost function Batch(db: Db, c: Consumer): seq<MemoryId> {
    Take(InSequence(db, PendingIds(db, c)), Some(TICK_BATCH))
  }

  ghost function Tick(x: Machine, me: Local, ftsFaults: Faults, milvusFaults: Faults): Machine {
    var x1 := Refresh(x, me);
    var first := Batch(x1.db, me.FtsConsumer());
    var x2 := FtsAll(x1, me, first, ftsFaults);
    if x2.blocked then x2.(lagging := first != [])
    else
      var second := Batch(x2.db, Milvus);
      MilvusAll(x2, me, second, milvusFaults).(lagging := first != [] || second != [])
  }

  /** A capped query: every row when they fit, otherwise some of them. */
  ghost predicate IsScan(milvus: map<MemoryId, MilvusRow>, scan: map<MemoryId, MilvusRow>) {
    && (forall id | id in scan :: id in milvus && scan[id] == milvus[id])
    && (|milvus| <= MILVUS_SCAN_LIMIT ==> scan == milvus)
  }

  /** Records whose Milvus copy shows an error: a tombstone that is held, a live record that is
      not, or another version or generation. */
  function MilvusStale(db: Db, scan: map<MemoryId, MilvusRow>): set<MemoryId> {
    set id | id in db.memories
      && if db.memories[id].Deleted() then id in scan
         else id !in scan || scan[id].version != db.memories[id].version
              || scan[id].generation != db.meta.generation
  }

  function FtsStale(db: Db, f: Fts.File): set<MemoryId> {
    set id | id in db.memories
      && if db.memories[id].Deleted() then id in f.rows
         else id !in f.rows || f.rows[id].version != db.memories[id].version
              || f.rows[id].contentHash != db.memories[id].contentHash
  }

  function Strays<T>(db: Db, held: map<MemoryId, T>): set<MemoryId> {
    set id | id in held && id !in db.memories
  }

  /** The Milvus half; a failure leaves it undone, or done without the acknowledgement reset. */
  function ReconcileMilvus(x: Machine, scan: map<MemoryId, MilvusRow>, fault: Fault): Machine {
    if x.blocked || fault == BeforeWrite then x
    else
      var y := x.(milvus := x.milvus - Strays(x.db, scan));
      if fault == AfterWrite then y
      else y.(db := ResetAcks(x.db, Some(MilvusStale(x.db, scan)), Some(Milvus)))
  }

  function ReconcileFts(x: Machine, me: Local): Machine {
    var stale := FtsStale(x.db, x.file);
    x.(file := Fts.Forget(x.file, stale + Strays(x.db, x.file.rows)),
       db := ResetAcks(x.db, Some(stale), Some(me.FtsConsumer())))
  }

  /** The FTS half runs whatever became of the Milvus half. */
  function Reconcile(x: Machine, me: Local, scan: map<MemoryId, MilvusRow>, fault: Fault): Machine {
    ReconcileFts(ReconcileMilvus(Refresh(x, me), scan, fault), me)
  }

  function Dead(db: Db, scan: map<MemoryId, MilvusRow>): set<MemoryId> {
    set id | id in scan && (id !in db.memories || db.memories[id].Deleted())
  }

  function BothAll(x: Machine, me: Local, ids: seq<MemoryId>): Machine {
    if ids == [] then x
    else
      var n := |ids| - 1;
      FtsOne(MilvusOne(BothAll(x, me, ids[..n]), me, ids[n], NoFault).0, me, ids[n], NoFault).0
  }

  /** Everything forgotten, then every record applied again in change_seq order. */
  ghost function Rebuild(x: Machine, me: Local, scan: map<MemoryId, MilvusRow>): Machine {
    var x1 := Refresh(x, me);
    var x2 := if x1.blocked then x1
              else x1.(db := ResetAcks(x1.db, None, Some(Milvus)),
                       milvus := x1.milvus - Dead(x1.db, scan));
    var x3 := x2.(db := ResetAcks(x2.db, None, Some(me.FtsConsumer())), file := Fts.EMPTY);
    BothAll(x3, me, InSequence(x1.db, x1.db.memories.Keys))
  }

  // ---- The machine ------------------------------------------------------------------------

  class Collection {
    var rows: map<MemoryId, MilvusRow>

    constructor () ensures rows == map[] { rows := map[]; }

    /** Every row, or `MILVUS_SCAN_LIMIT` of them. */
    method Scan() returns (scan: map<MemoryId, MilvusRow>)
      ensures IsScan(rows, scan)
    {
      scan := rows;
      while |scan| > MILVUS_SCAN_LIMIT
        invariant forall id | id in scan :: id in rows && scan[id] == rows[id]
        invariant |rows| <= MILVUS_SCAN_LIMIT ==> scan == rows
        decreases scan.Keys
      {
        var id :| id in scan;
        scan := scan - {id};
      }
    }
  }

  class Index {
    const store: Store
    const milvus: Collection
    const fts: Fts.Index
    const me: Local
    var blocked: bool
    var lagging: bool

    constructor (store: Store, milvus: Collection, fts: Fts.Index, me: Local)
      ensures this.store == store && this.milvus == milvus && this.fts == fts && this.me == me
      ensures !blocked && lagging
    {
      this.store, this.milvus, this.fts, this.me := store, milvus, fts, me;
      blocked, lagging := false, true;
    }

    function State(): Machine
      reads this, store, milvus, fts
    {
      Machine(store.State(), milvus.rows, fts.Contents(), blocked, lagging)
    }

    method RefreshModelBlock()
      modifies this, store
      ensures State() == Refresh(old(State()), me)
    {
      var meta := store.meta;
      if meta.modelName.None? || meta.fingerprint.None? {
        meta := store.ClaimIndexModel(me.server.model.name, me.server.model.dim, me.claimable);
      }
      blocked := Refused(meta, me.server);
    }

    method ApplyFts(id: MemoryId, fault: Fault) returns (ok: bool)
      modifies store, fts
      ensures (State(), ok) == FtsOne(old(State()), me, id, fault)
    {
      if fault == BeforeWrite || id !in store.memories { return false; }
      var row, ack := store.memories[id], RowAck(State(), id);
      var applied := fts.ApplyRow(id, row);
      if !applied {
        var mark := fts.Watermark(id);
        if mark.None? || mark.value < row.version { return false; }
      }
      if fault == AfterWrite { return false; }
      var _ := store.RecordAck(me.FtsConsumer(), id, ack);
      return true;
    }

    /** The locked write; `None` when the text changed since it was embedded or the model is not
        this machine's, which also sets the block. */
    method MilvusWrite(id: MemoryId, hash: Hash, vector: Option<Vector>) returns (written: Option<Ack>)
      requires id in store.memories
      modifies this`blocked, milvus
      ensures var row, x := store.memories[id], old(State());
              if row.Deleted() then
                State() == x.(milvus := x.milvus - {id}) && written == Some(RowAck(x, id))
              else if vector.None? || row.contentHash != hash then State() == x && written.None?
              else if Refused(store.meta, me.server) then
                State() == x.(blocked := true) && written.None?
              else
                && State() == x.(milvus := x.milvus[id := MilvusRowOf(row, store.meta.generation,
                                                                      vector.value)],
                                 blocked := false)
                && written == Some(RowAck(x, id))
    {
      var row := store.memories[id];
      var ack := RowAck(State(), id);
      if row.Deleted() {
        milvus.rows := milvus.rows - {id};
        return Some(ack);
      }
      if vector.None? || row.contentHash != hash { return None; }
      blocked := Refused(store.meta, me.server);
      if blocked { return None; }
      milvus.rows := milvus.rows[id := MilvusRowOf(row, store.meta.generation, vector.value)];
      return Some(ack);
    }

    method ApplyMilvus(id: MemoryId, fault: Fault) returns (ok: bool)
      modifies this`blocked, store, milvus
      ensures (State(), ok) == MilvusOne(old(State()), me, id, fault)
    {
      if blocked { return false; }
      for tries := 0 to MAX_EMBED_RACES
        invariant tries == 0 ==> State() == old(State())
        invariant tries == 0 ==> !blocked
        invariant tries > 0 ==> blocked && (State(), false) == MilvusOne(old(State()), me, id, fault)
      {
        if blocked { return false; }
        if fault == BeforeWrite || id !in store.memories { return false; }
        var row := store.memories[id];
        if IsAcked(store.State(), Milvus, id, row.version, store.meta.generation) { return true; }
        var vector := if row.Deleted() then None else Some(Embedding(me.server.model, row.text));
        var written := MilvusWrite(id, row.contentHash, vector);
        if written.Some? {
          if fault == AfterWrite { return false; }
          var _ := store.RecordAck(Milvus, id, written.value);
          return true;
        }
      }
      return false;
    }

    method FtsPass(batch: seq<MemoryId>, faults: Faults) returns (done: nat)
      modifies store, fts
      ensures State() == FtsAll(old(State()), me, batch, faults)
      ensures done == FtsOks(old(State()), me, batch, faults)
    {
      done := 0;
      for i := 0 to |batch|
        invariant State() == FtsAll(old(State()), me, batch[..i], faults)
        invariant done == FtsOks(old(State()), me, batch[..i], faults)
      {
        assert batch[..i + 1][..i] == batch[..i];
        var ok := ApplyFts(batch[i], faults(batch[i]));
        if ok { done := done + 1; }
      }
      assert batch[..|batch|] == batch;
    }

    method MilvusPass(batch: seq<MemoryId>, faults: Faults) returns (done: nat)
      modifies this`blocked, store, milvus
      ensures State() == MilvusAll(old(State()), me, batch, faults)
      ensures done == MilvusOks(old(State()), me, batch, faults)
    {
      done := 0;
      for i := 0 to |batch|
        invariant State() == MilvusAll(old(State()), me, batch[..i], faults)
        invariant done == MilvusOks(old(State()), me, batch[..i], faults)
      {
        assert batch[..i + 1][..i] == batch[..i];
        var ok := ApplyMilvus(batch[i], faults(batch[i]));
        if ok { done := done + 1; }
      }
      assert batch[..|batch|] == batch;
    }

    /** Apply pending records, this host's FTS file first; returns how many each consumer took. */
    method RunTick(ftsFaults: Faults, milvusFaults: Faults) returns (ftsDone: nat, milvusDone: nat)
      requires store.SequencesDiffer()
      modifies this, store, milvus, fts
      ensures State() == Tick(old(State()), me, ftsFaults, milvusFaults)
      ensures var x := Refresh(old(State()), me);
              && ftsDone == FtsOks(x, me, Batch(x.db, me.FtsConsumer()), ftsFaults)
              && var x2 := FtsAll(x, me, Batch(x.db, me.FtsConsumer()), ftsFaults);
                 milvusDone == if x2.blocked then 0 else MilvusOks(x2, me, Batch(x2.db, Milvus), milvusFaults)
    {
      hide FtsAll, MilvusAll, FtsOks, MilvusOks, Refused, Claim, PendingIds, InSequence;
      RefreshModelBlock();
      var batch := store.Pending(me.FtsConsumer(), Some(TICK_BATCH));
      var seen := |batch|;
      ghost var x1 := State();
      ftsDone := FtsPass(batch, ftsFaults);
      FtsRows(x1, me, batch, ftsFaults);
      milvusDone := 0;
      if !blocked {
        var second := store.Pending(Milvus, Some(TICK_BATCH));
        seen := seen + |second|;
        milvusDone := MilvusPass(second, milvusFaults);
      }
      lagging := seen > 0;
    }

    /** The Milvus half; `raised` says whether it failed. */
    method ReconcileMilvusHalf(fault: Fault) returns (reset: nat, raised: bool, ghost scan: map<MemoryId, MilvusRow>)
      modifies store, milvus
      ensures IsScan(old(milvus.rows), scan)
      ensures State() == ReconcileMilvus(old(State()), scan, fault)
      ensures raised <==> !blocked && fault != NoFault
      ensures reset == |old(store.acks)| - |store.acks|
    {
      hide MilvusStale, Strays, ResetAcks;
      reset, raised, scan := 0, false, milvus.rows;
      if blocked { return; }
      if fault == BeforeWrite { raised := true; return; }
      var rows := milvus.Scan();
      scan := rows;
      var stale := MilvusStale(store.State(), rows);
      milvus.rows := milvus.rows - Strays(store.State(), rows);
      if fault == AfterWrite { raised := true; return; }
      if stale != {} {
        reset := store.ClearAcks(Some(stale), Some(Milvus));
      } else {
        NothingReset(store.State(), Milvus);
      }
    }

    method ReconcileFtsHalf() returns (reset: nat)
      modifies store, fts
      ensures State() == ReconcileFts(old(State()), me)
      ensures reset == |old(store.acks)| - |store.acks|
    {
      hide FtsStale, Strays, ResetAcks;
      reset := 0;
      var stale := FtsStale(store.State(), fts.Contents());
      var strays := Strays(store.State(), fts.rows);
      if stale + strays != {} {
        fts.ForgetRecords(stale + strays);
      } else {
        assert Fts.Forget(fts.Contents(), {}) == fts.Contents();
      }
      if stale != {} {
        reset := store.ClearAcks(Some(stale), Some(me.FtsConsumer()));
      } else {
        NothingReset(store.State(), me.FtsConsumer());
      }
    }

    /** Reset what the two indexes show as wrong; returns how many acknowledgements went, and whether
        the Milvus half failed. */
    method RunReconcile(fault: Fault) returns (reset: nat, raised: bool, ghost scan: map<MemoryId, MilvusRow>)
      modifies this, store, milvus, fts
      ensures IsScan(old(milvus.rows), scan)
      ensures State() == Reconcile(old(State()), me, scan, fault)
      ensures reset == |old(store.acks)| - |store.acks|
      ensures raised <==> !Refresh(old(State()), me).blocked && fault != NoFault
    {
      RefreshModelBlock();
      reset, raised, scan := ReconcileMilvusHalf(fault);
      var more := ReconcileFtsHalf();
      reset := reset + more;
    }

    /** Replay every record in change_seq order into both consumers; returns how many there are and how many
        each consumer still has pending, Milvus only when it is not refused. */
    method RunRebuild()
      returns (records: nat, ftsPending: nat, milvusPending: Option<nat>, ghost scan: map<MemoryId, MilvusRow>)
      requires store.SequencesDiffer()
      modifies this, store, milvus, fts
      ensures IsScan(old(milvus.rows), scan)
      ensures State() == Rebuild(old(State()), me, scan)
      ensures records == |old(store.memories)| && ftsPending == |PendingIds(store.State(), me.FtsConsumer())|
      ensures milvusPending == if blocked then None else Some(|PendingIds(store.State(), Milvus)|)
    {
      hide Rebuild, PendingIds, ResetAcks;
      ghost var before := State();
      records, scan := ReplayAll();
      RebuildRows(before, me, scan);
      ftsPending := CountPending(me.FtsConsumer());
      milvusPending := None;
      if !blocked {
        var left := CountPending(Milvus);
        milvusPending := Some(left);
      }
    }

    /** The whole replay, and how many records it went over. */
    method ReplayAll() returns (records: nat, ghost scan: map<MemoryId, MilvusRow>)
      requires store.SequencesDiffer()
      modifies this, store, milvus, fts
      ensures IsScan(old(milvus.rows), scan)
      ensures State() == Rebuild(old(State()), me, scan)
      ensures records == |old(store.memories)|
    {
      hide BothAll, Refused, Claim, InSequence, Dead, PendingIds, ResetAcks;
      scan := milvus.rows;
      RefreshModelBlock();
      var state := store.State();
      var ids := store.Everything();
      records := |ids|;
      InSequenceLists(state, state.memories.Keys);
      if !blocked {
        var _ := store.ClearAcks(None, Some(Milvus));
        var rows := milvus.Scan();
        scan := rows;
        milvus.rows := milvus.rows - Dead(state, rows);
      }
      var _ := store.ClearAcks(None, Some(me.FtsConsumer()));
      fts.Reset();
      BothPass(ids);
    }

    /** How many records a consumer still has pending. */
    method CountPending(c: Consumer) returns (n: nat)
      requires store.SequencesDiffer()
      ensures n == |PendingIds(store.State(), c)|
    {
      hide InSequence;
      var batch := store.Pending(c, None);
      InSequenceLists(store.State(), PendingIds(store.State(), c));
      n := |batch|;
    }

    method BothPass(ids: seq<MemoryId>)
      modifies this`blocked, store, milvus, fts
      ensures State() == BothAll(old(State()), me, ids)
    {
      for i := 0 to |ids|
        invariant State() == BothAll(old(State()), me, ids[..i])
      {
        assert ids[..i + 1][..i] == ids[..i];
        var _ := ApplyMilvus(ids[i], NoFault);
        var _ := ApplyFts(ids[i], NoFault);
      }
      assert ids[..|ids|] == ids;
    }
  }

  /** Applying records writes no canonical row. */
  lemma {:induction false} FtsRows(x: Machine, me: Local, ids: seq<MemoryId>, faults: Faults)
    ensures FtsAll(x, me, ids, faults).db.memories == x.db.memories
    ensures FtsAll(x, me, ids, faults).db.meta == x.db.meta
  {
    if ids != [] { FtsRows(x, me, ids[..|ids| - 1], faults); }
  }

  lemma {:induction false} BothRows(x: Machine, me: Local, ids: seq<MemoryId>)
    ensures BothAll(x, me, ids).db.memories == x.db.memories
  {
    hide MilvusOne, FtsOne;
    if ids != [] {
      var y, id := BothAll(x, me, ids[..|ids| - 1]), ids[|ids| - 1];
      BothRows(x, me, ids[..|ids| - 1]);
      MilvusOneRows(y, me, id);
      FtsOneRows(MilvusOne(y, me, id, NoFault).0, me, id);
    }
  }

  lemma MilvusOneRows(x: Machine, me: Local, id: MemoryId)
    ensures MilvusOne(x, me, id, NoFault).0.db.memories == x.db.memories
  {
  }

  lemma FtsOneRows(x: Machine, me: Local, id: MemoryId)
    ensures FtsOne(x, me, id, NoFault).0.db.memories == x.db.memories
  {
  }

  lemma RebuildRows(x: Machine, me: Local, scan: map<MemoryId, MilvusRow>)
    ensures Rebuild(x, me, scan).db.memories == x.db.memories
  {
    hide BothAll;
    forall y, ids ensures BothAll(y, me, ids).db.memories == y.db.memories { BothRows(y, me, ids); }
  }

  lemma NothingReset(db: Db, c: Consumer)
    ensures ResetAcks(db, Some({}), Some(c)) == db
  {
    assert ResetAcks(db, Some({}), Some(c)).acks == db.acks;
  }
}
