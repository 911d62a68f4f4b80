/** What the index promises, said of stored columns alone: when a machine is admitted, what each index holds in
    every column, what one call does, and what a tick and a reconcile report. */
module IndexLaws {
  import opened Wrappers
  import opened MemoryStore
  import opened IndexProtocol
  import opened IndexGuarantees
  import opened MemoryIndex
  import opened IndexConvergence
  import opened IndexSchedule
  import Fts = MemoryFts

  // ---- Admission --------------------------------------------------------------------------

  /** A fingerprint that is there must name the server's model ID and dimension. */
  predicate Agreeing(fp: Option<Fingerprint>, s: Server) {
    fp.None? || (fp.value.modelId == s.fingerprint.modelId && fp.value.embedDim == s.fingerprint.embedDim)
  }

  /** A machine is admitted exactly when no model is named and the fingerprint it may claim is its server's, or the one
      named is its server's and so is the fingerprint that then stands. */
  lemma AdmittedIff(x: Machine, me: Local)
    ensures Admitted(x, me) <==>
              var meta, s := x.db.meta, me.server;
              if meta.modelName.None? then Agreeing(me.claimable, s)
              else && meta.modelName == Some(s.model.name) && meta.vectorDim == Some(s.model.dim)
                   && Agreeing(if meta.fingerprint.Some? then meta.fingerprint else me.claimable, s)
  {}

  /** What a refresh records: a model where none was named, and a fingerprint where the server's own model had none;
      nothing else, and never over what was recorded. */
  lemma RefreshRecords(x: Machine, me: Local)
    ensures var y, meta, s := Refresh(x, me), x.db.meta, me.server;
            && y == x.(db := x.db.(meta := y.db.meta), blocked := y.blocked)
            && y.db.meta.generation == meta.generation
            && y.db.meta.modelName == Some(if meta.modelName.Some? then meta.modelName.value else s.model.name)
            && y.db.meta.vectorDim == (if meta.modelName.Some? then meta.vectorDim else Some(s.model.dim))
            && y.db.meta.fingerprint
               == if meta.modelName.None? || (meta.fingerprint.None? && meta.modelName == Some(s.model.name)
                                              && meta.vectorDim == Some(s.model.dim))
                  then me.claimable else meta.fingerprint
  {}

  /** From every world of every run that names no model yet, the ticks of a server whose claim agrees with it name its model
      and bring both its indexes to canonical. */
  lemma UnnamedConverges(ws: seq<World>, es: seq<Event>, i: nat, sv: string, fp: Option<Fingerprint>, n: nat)
    requires Run(ws, es) && i < |ws| && sv in ws[i].servers && sv in ws[i].files
    requires ws[i].db.meta.modelName.None? && Agreeing(fp, ws[i].servers[sv])
    requires n > 0 && Owed(ws[i].db, Milvus) <= n * TICK_BATCH && Owed(ws[i].db, Consumer.Fts(sv)) <= n * TICK_BATCH
    ensures var x, me := MachineOf(ws[i], sv, true), Local(sv, ws[i].servers[sv], fp);
            var y := Ticks(x, me, n);
            && y.db.memories == x.db.memories && !y.blocked
            && y.db.meta == Meta(Some(me.server.model.name), Some(me.server.model.dim), fp, x.db.meta.generation)
            && SyncedColumns(y, me)
  {
    hide Settled, PendingIds, StuckIds, DistinctSeqs, Synced, Inv, Run, Refused, Claim, SyncedColumns;
    var x, me := MachineOf(ws[i], sv, true), Local(sv, ws[i].servers[sv], fp);
    RunInv(ws, es, i);
    AdmittedIff(x, me);
    SettledAt(ws[i], sv, fp);
    TicksConverge(x, me, n);
    TicksDrain(x, me, n);
    TicksName(x, me, n);
    SyncedIff(Ticks(x, me, n), me);
  }

  lemma {:induction false} TicksName(x: Machine, me: Local, n: nat)
    requires n > 0 && x.db.meta.modelName.None?
    ensures Ticks(x, me, n).db.meta
            == Meta(Some(me.server.model.name), Some(me.server.model.dim), me.claimable, x.db.meta.generation)
  {
    hide Tick, Refresh;
    var y := Ticks(x, me, n - 1);
    TickMeta(y, me, NO_FAULTS, NO_FAULTS);
    RefreshRecords(y, me);
    if n > 1 { TicksName(x, me, n - 1); }
  }

  // ---- Columns ----------------------------------------------------------------------------

  predicate Listed(extra: Extra, key: string, column: seq<string>) {
    column == if key in extra then extra[key] else []
  }

  /** A Milvus row with every column of a record, at a generation, and the embedding of its text by a model. */
  predicate CopyOf(row: MilvusRow, m: Memory, generation: nat, model: Model) {
    && row.version == m.version && row.generation == generation && row.vector.text == m.text && row.vector.model == model
    && row.user == m.user && row.agent == m.agent && row.project == m.project && row.kind == m.kind && row.status == m.status
    && row.issueIds == m.issueIds && Listed(m.extra, "source", row.source) && Listed(m.extra, "category", row.category)
    && row.createdAt == m.createdAt
  }

  /** A row of the file with every column of a record. */
  predicate FileCopyOf(row: Fts.FtsRow, m: Memory) {
    && row.version == m.version && row.contentHash == m.contentHash && row.text == m.text
    && row.user == m.user && row.agent == m.agent && row.project == m.project && row.kind == m.kind && row.status == m.status
    && row.issueIds == m.issueIds && Listed(m.extra, "source", row.source) && Listed(m.extra, "category", row.category)
    && row.createdAt == m.createdAt
  }

  lemma CopyIff(row: MilvusRow, m: Memory, generation: nat, model: Model)
    ensures CopyOf(row, m, generation, model) <==> row == MilvusRowOf(m, generation, Embedding(model, m.text))
  {}

  lemma FileCopyIff(row: Fts.FtsRow, m: Memory)
    ensures FileCopyOf(row, m) <==> row == Fts.RowOf(m)
  {}

  predicate LiveAt(db: Db, id: MemoryId) { id in db.memories && db.memories[id].deletedAt.None? }

  /** Both indexes hold the live records, each of them in every column, and nothing else. */
  ghost predicate SyncedColumns(x: Machine, me: Local) {
    && (forall id :: id in x.milvus <==> LiveAt(x.db, id)) && (forall id :: id in x.file.rows <==> LiveAt(x.db, id))
    && (forall id | id in x.milvus && id in x.db.memories ::
          CopyOf(x.milvus[id], x.db.memories[id], x.db.meta.generation, me.server.model))
    && (forall id | id in x.file.rows && id in x.db.memories :: FileCopyOf(x.file.rows[id], x.db.memories[id]))
  }

  lemma SyncedIff(x: Machine, me: Local)
    ensures Synced(x, me) <==> SyncedColumns(x, me)
  {
    hide CopyOf, FileCopyOf, MilvusRowOf, Fts.RowOf;
    forall id | id in x.milvus && id in x.db.memories {
      CopyIff(x.milvus[id], x.db.memories[id], x.db.meta.generation, me.server.model);
    }
    forall id | id in x.file.rows && id in x.db.memories { FileCopyIff(x.file.rows[id], x.db.memories[id]); }
    if Synced(x, me) {
      forall id | id in x.db.memories ensures MilvusRight(x, me, id) && HeldNow(x.db, x.file, id) {}
    } else if SyncedColumns(x, me) {
      forall id | id in x.db.memories ensures MilvusRight(x, me, id) {}
    }
  }

  /** The same of the worlds of a run: nothing pending, every column right. */
  lemma MatchesColumns(w: World)
    ensures MilvusMatches(w) <==>
              && (forall id :: id in w.milvus <==> LiveAt(w.db, id))
              && (forall id | id in w.milvus ::
                    w.db.meta.generation in w.models
                    && CopyOf(w.milvus[id], w.db.memories[id], w.db.meta.generation, w.models[w.db.meta.generation]))
  {
    hide CopyOf, MilvusRowOf;
    forall id | id in w.milvus && id in w.db.memories && w.db.meta.generation in w.models {
      CopyIff(w.milvus[id], w.db.memories[id], w.db.meta.generation, w.models[w.db.meta.generation]);
    }
  }

  lemma FileMatchesColumns(db: Db, f: Fts.File)
    ensures FileMatches(db, f) <==>
              && (forall id :: id in f.rows <==> LiveAt(db, id))
              && (forall id | id in f.rows :: FileCopyOf(f.rows[id], db.memories[id]))
  {
    hide FileCopyOf, Fts.RowOf;
    forall id | id in f.rows && id in db.memories { FileCopyIff(f.rows[id], db.memories[id]); }
  }

  // ---- One call ---------------------------------------------------------------------------

  /** The recorded model and fingerprint are the server's, or there is no fingerprint. */
  predicate Serves(meta: Meta, s: Server) {
    meta.modelName == Some(s.model.name) && meta.vectorDim == Some(s.model.dim) && Agreeing(meta.fingerprint, s)
  }

  /** The acknowledgement is of this version and generation, or comes after them in row order. */
  predicate Reached(a: Ack, version: nat, generation: nat) {
    a.version > version || (a.version == version && a.generation >= generation)
  }

  /** Only `id` changed of the entries. */
  ghost predicate OnlyAt<K(!new), V(!new)>(m: map<K, V>, m': map<K, V>, k: K) {
    forall o | o != k :: Same(m, m', o)
  }

  /** The tables are as they were but that consumer `c` has acknowledged the record as it is, unless its acknowledgement
      was there or beyond. */
  ghost predicate Acknowledges(db: Db, db': Db, c: Consumer, id: MemoryId)
    requires id in db.memories
  {
    var m, g := db.memories[id], db.meta.generation;
    && db' == db.(acks := db'.acks) && OnlyAt(db.acks, db'.acks, (c, id)) && (c, id) in db'.acks
    && (if (c, id) in db.acks && Reached(db.acks[(c, id)], m.version, g) then db'.acks[(c, id)] == db.acks[(c, id)]
        else db'.acks[(c, id)] == Ack(m.version, g, m.deletedAt.Some?))
  }

  /** What one Milvus call does, wherever it fails: nothing for a record that is not there, is acknowledged, or whose
      machine is blocked; a delete for a tombstone; a block where the model is another; else the row. */
  lemma MilvusCallIs(x: Machine, me: Local, id: MemoryId, fault: Fault)
    ensures var (y, ok) := MilvusOne(x, me, id, fault);
            if x.blocked || fault == BeforeWrite || id !in x.db.memories then y == x && !ok
            else
              var m, g := x.db.memories[id], x.db.meta.generation;
              if (Milvus, id) in x.db.acks && Reached(x.db.acks[(Milvus, id)], m.version, g) then y == x && ok
              else if m.deletedAt.None? && !Serves(x.db.meta, me.server) then y == x.(blocked := true) && !ok
              else
                && y == x.(milvus := y.milvus, db := y.db) && OnlyAt(x.milvus, y.milvus, id)
                && (if m.deletedAt.Some? then id !in y.milvus
                    else id in y.milvus && CopyOf(y.milvus[id], m, g, me.server.model))
                && (if fault == AfterWrite then y.db == x.db && !ok else Acknowledges(x.db, y.db, Milvus, id) && ok)
  {}

  /** And one call for a file: the row and its mark where the mark is missing or earlier, and the acknowledgement also
      where it is not. */
  lemma FtsCallIs(x: Machine, me: Local, id: MemoryId, fault: Fault)
    ensures var (y, ok) := FtsOne(x, me, id, fault);
            if fault == BeforeWrite || id !in x.db.memories then y == x && !ok
            else
              var m := x.db.memories[id];
              && y == x.(file := y.file, db := y.db)
              && (if id in x.file.marks && x.file.marks[id].version >= m.version then y.file == x.file
                  else && OnlyAt(x.file.rows, y.file.rows, id) && OnlyAt(x.file.marks, y.file.marks, id)
                       && id in y.file.marks && y.file.marks[id] == Fts.Mark(m.version, m.deletedAt.Some?)
                       && (if m.deletedAt.Some? then id !in y.file.rows
                           else id in y.file.rows && FileCopyOf(y.file.rows[id], m)))
              && (if fault == AfterWrite then y.db == x.db && !ok
                  else Acknowledges(x.db, y.db, Consumer.Fts(me.host), id) && ok)
  {}

  /** A worker that finds another text under the lock than it embedded gives the lock back and starts over, twice at most, and
      writes nothing. */
  lemma RetriesAre(w: World, k: nat)
    requires HostOf(w, k) && w.workers[k].MLocked? && w.workers[k].row.deletedAt.None?
    requires w.workers[k].vector.None? || w.workers[k].row.contentHash != w.workers[k].hash
    ensures var p, v := w.workers[k], Step(w, k);
            && v.db == w.db && v.milvus == w.milvus && v.files == w.files && (forall id | id in v.locks :: v.locks[id] != k)
            && (forall j | j != k :: Same(w.workers, v.workers, j))
            && (if p.tries < 2 then k in v.workers && v.workers[k] == MStart(p.sv, p.id, p.tries + 1) else k !in v.workers)
  {}

  // ---- What a tick reports ------------------------------------------------------------------

  /** A machine lags until a tick finds nothing pending: for its file, or for Milvus unless it is blocked. */
  lemma LaggingIff(x: Machine, me: Local, ff: Faults, mf: Faults)
    requires DistinctSeqs(x.db) && Settled(x, me) && Admitted(x, me)
    ensures Tick(x, me, ff, mf).lagging
            <==> (exists id :: id in PendingIds(x.db, me.FtsConsumer())) || (exists id :: id in PendingIds(x.db, Milvus))
  {
    hide Settled, PendingIds, Refused, Claim, FtsAll, MilvusAll, Batch, StuckIds;
    RefreshKeeps(x, me);
    var x1 := Refresh(x, me);
    var first := Batch(x1.db, me.FtsConsumer());
    BatchOf(x1.db, me.FtsConsumer());
    PendingRecords(x1.db, me.FtsConsumer());
    FtsAllKeeps(x1, me, first, ff);
    var x2 := FtsAll(x1, me, first, ff);
    BatchOf(x2.db, Milvus);
    NoneCount(PendingIds(x.db, me.FtsConsumer()));
    NoneCount(PendingIds(x.db, Milvus));
  }

  lemma NoneCount(s: set<MemoryId>)
    ensures |s| == 0 <==> forall id :: id !in s
  {
    if |s| != 0 { var id :| id in s; }
  }

  /** The calls that succeed in a pass are those that do not fail. */
  lemma {:induction false} FtsOksAre(x: Machine, me: Local, ids: seq<MemoryId>, faults: Faults)
    requires forall id | id in ids :: id in x.db.memories
    ensures FtsOks(x, me, ids, faults) == CalmCalls(ids, faults)
    ensures FtsAll(x, me, ids, faults).db.memories == x.db.memories
  {
    hide FtsOne;
    if ids != [] {
      var n := |ids| - 1;
      assert ids[n] in ids && forall id | id in ids[..n] :: id in ids;
      FtsOksAre(x, me, ids[..n], faults);
      FtsOneOk(FtsAll(x, me, ids[..n], faults), me, ids[n], faults(ids[n]));
    }
  }

  lemma FtsOneOk(x: Machine, me: Local, id: MemoryId, fault: Fault)
    requires id in x.db.memories
    ensures FtsOne(x, me, id, fault).1 <==> fault == NoFault
    ensures FtsOne(x, me, id, fault).0.db.memories == x.db.memories
  {}

  lemma {:induction false} MilvusOksAre(x: Machine, me: Local, ids: seq<MemoryId>, faults: Faults)
    requires !x.blocked && Serves(x.db.meta, me.server)
    requires forall id | id in ids :: id in x.db.memories && !AckedNow(x.db, id)
    requires forall i, j | 0 <= i < j < |ids| :: ids[i] != ids[j]
    ensures MilvusOks(x, me, ids, faults) == CalmCalls(ids, faults)
    ensures var y := MilvusAll(x, me, ids, faults);
            && y.db == x.db.(acks := y.db.acks) && !y.blocked
            && forall o | o !in ids :: Same(x.db.acks, y.db.acks, (Milvus, o))
  {
    hide MilvusOne, AckedNow, Serves;
    if ids != [] {
      var n := |ids| - 1;
      var front := ids[..n];
      assert ids[n] in ids && ids[n] !in front && forall id | id in front :: id in ids;
      MilvusOksAre(x, me, front, faults);
      var y := MilvusAll(x, me, front, faults);
      assert AckedNow(y.db, ids[n]) == AckedNow(x.db, ids[n]) by { SameAcked(x.db, y.db, ids[n]); }
      MilvusOneOk(y, me, ids[n], faults(ids[n]));
    }
  }

  lemma SameAcked(db: Db, db': Db, id: MemoryId)
    requires db' == db.(acks := db'.acks) && id in db.memories && Same(db.acks, db'.acks, (Milvus, id))
    ensures AckedNow(db', id) == AckedNow(db, id)
  {}

  lemma MilvusOneOk(x: Machine, me: Local, id: MemoryId, fault: Fault)
    requires !x.blocked && Serves(x.db.meta, me.server) && id in x.db.memories && !AckedNow(x.db, id)
    ensures var (y, ok) := MilvusOne(x, me, id, fault);
            && (ok <==> fault == NoFault) && y.db == x.db.(acks := y.db.acks) && !y.blocked
            && forall o | o != id :: Same(x.db.acks, y.db.acks, (Milvus, o))
  {}

  function CalmCalls(ids: seq<MemoryId>, faults: Faults): nat {
    if ids == [] then 0
    else CalmCalls(ids[..|ids| - 1], faults) + if faults(ids[|ids| - 1]) == NoFault then 1 else 0
  }

  // ---- What a reconcile does ----------------------------------------------------------------

  /** A copy shows an error: it is held for a tombstone, or missing or of another version, generation or content for
      a live record. */
  predicate WrongInMilvus(db: Db, scan: map<MemoryId, MilvusRow>, id: MemoryId)
    requires id in db.memories
  {
    var m := db.memories[id];
    if m.deletedAt.Some? then id in scan
    else id !in scan || scan[id].version != m.version || scan[id].generation != db.meta.generation
  }

  predicate WrongInFile(db: Db, f: Fts.File, id: MemoryId)
    requires id in db.memories
  {
    var m := db.memories[id];
    if m.deletedAt.Some? then id in f.rows
    else id !in f.rows || f.rows[id].version != m.version || f.rows[id].contentHash != m.contentHash
  }

  /** A reconcile in which nothing fails: the rows of no record go from Milvus as far as the scan saw them and from
      the file, whose wrong rows go too; the acknowledgements of exactly the wrong ones go; the rest stays. */
  lemma ReconcileIs(x: Machine, me: Local, scan: map<MemoryId, MilvusRow>)
    requires Admitted(x, me)
    ensures var y := Reconcile(x, me, scan, NoFault);
            && y.db == x.db.(acks := y.db.acks, meta := y.db.meta) && y.db.meta.generation == x.db.meta.generation && !y.blocked
            && (forall id :: id in y.milvus <==> id in x.milvus && (id in x.db.memories || id !in scan))
            && (forall id | id in y.milvus :: y.milvus[id] == x.milvus[id])
            && (forall id :: id in y.file.rows <==> id in x.file.rows && id in x.db.memories && !WrongInFile(x.db, x.file, id))
            && (forall id | id in y.file.rows :: y.file.rows[id] == x.file.rows[id])
            && (forall id :: id in y.file.marks <==>
                  id in x.file.marks && (if id in x.db.memories then !WrongInFile(x.db, x.file, id) else id !in x.file.rows))
            && (forall id | id in y.file.marks :: y.file.marks[id] == x.file.marks[id])
            && (forall c, id :: (c, id) in y.db.acks <==>
                  && (c, id) in x.db.acks
                  && !(c == Milvus && id in x.db.memories && WrongInMilvus(x.db, scan, id))
                  && !(c == Consumer.Fts(me.host) && id in x.db.memories && WrongInFile(x.db, x.file, id)))
            && (forall k | k in y.db.acks :: y.db.acks[k] == x.db.acks[k])
  {
    hide Claim, Refused, Reconcile;
    RefreshRecords(x, me);
    ReconcileHalves(x, me, scan);
    MilvusHalfIs(Refresh(x, me), scan);
    FileHalfIs(ReconcileMilvus(Refresh(x, me), scan, NoFault), me);
  }

  lemma ReconcileHalves(x: Machine, me: Local, scan: map<MemoryId, MilvusRow>)
    ensures Reconcile(x, me, scan, NoFault) == ReconcileFts(ReconcileMilvus(Refresh(x, me), scan, NoFault), me)
  {}

  lemma MilvusHalfIs(x: Machine, scan: map<MemoryId, MilvusRow>)
    requires !x.blocked
    ensures var y := ReconcileMilvus(x, scan, NoFault);
            && y == x.(milvus := y.milvus, db := x.db.(acks := y.db.acks))
            && (forall id :: id in y.milvus <==> id in x.milvus && (id in x.db.memories || id !in scan))
            && (forall id | id in y.milvus :: y.milvus[id] == x.milvus[id])
            && (forall c, id :: (c, id) in y.db.acks <==>
                  (c, id) in x.db.acks && !(c == Milvus && id in x.db.memories && WrongInMilvus(x.db, scan, id)))
            && (forall k | k in y.db.acks :: y.db.acks[k] == x.db.acks[k])
  {}

  lemma FileHalfIs(x: Machine, me: Local)
    ensures var y := ReconcileFts(x, me);
            && y == x.(file := y.file, db := x.db.(acks := y.db.acks))
            && (forall id :: id in y.file.rows <==> id in x.file.rows && id in x.db.memories && !WrongInFile(x.db, x.file, id))
            && (forall id | id in y.file.rows :: y.file.rows[id] == x.file.rows[id])
            && (forall id :: id in y.file.marks <==>
                  id in x.file.marks && (if id in x.db.memories then !WrongInFile(x.db, x.file, id) else id !in x.file.rows))
            && (forall id | id in y.file.marks :: y.file.marks[id] == x.file.marks[id])
            && (forall c, id :: (c, id) in y.db.acks <==>
                  (c, id) in x.db.acks && !(c == Consumer.Fts(me.host) && id in x.db.memories && WrongInFile(x.db, x.file, id)))
            && (forall k | k in y.db.acks :: y.db.acks[k] == x.db.acks[k])
  {}

  /** A reconcile whose Milvus half is refused or fails leaves Milvus and its acknowledgements alone, but for the strays when it
      failed after they went; the file's half is done all the same. */
  lemma ReconcileFailsIs(x: Machine, me: Local, scan: map<MemoryId, MilvusRow>, fault: Fault)
    requires Admitted(x, me) ==> fault != NoFault
    ensures var y := Reconcile(x, me, scan, fault);
            && y.db == x.db.(acks := y.db.acks, meta := y.db.meta) && (y.blocked <==> !Admitted(x, me))
            && (forall id :: id in y.milvus <==>
                  id in x.milvus && (Admitted(x, me) && fault == AfterWrite ==> id in x.db.memories || id !in scan))
            && (forall id | id in y.milvus :: y.milvus[id] == x.milvus[id])
            && (forall id :: Same(x.db.acks, y.db.acks, (Milvus, id)))
            && (forall id :: id in y.file.rows <==> id in x.file.rows && id in x.db.memories && !WrongInFile(x.db, x.file, id))
            && (forall id | id in x.db.memories && WrongInFile(x.db, x.file, id) :: (Consumer.Fts(me.host), id) !in y.db.acks)
  {
    hide Claim, Refused;
    RefreshRecords(x, me);
    var x1 := Refresh(x, me);
    var mid := ReconcileMilvus(x1, scan, fault);
    assert mid.db == x1.db && mid.file == x.file;
    FileHalfIs(mid, me);
  }

  /** A rebuild on a machine that is refused leaves Milvus and its acknowledgements alone and makes the file the live records,
      every one of them acknowledged. */
  lemma RebuildRefusedIs(x: Machine, me: Local, scan: map<MemoryId, MilvusRow>)
    requires !Admitted(x, me) && DistinctSeqs(x.db)
    ensures var y := Rebuild(x, me, scan);
            && y.blocked && y.milvus == x.milvus && y.db.memories == x.db.memories
            && (forall id :: Same(x.db.acks, y.db.acks, (Milvus, id)))
            && (forall id :: id in y.file.rows <==> LiveAt(x.db, id))
            && (forall id | id in y.file.rows :: FileCopyOf(y.file.rows[id], x.db.memories[id]))
            && PendingIds(y.db, me.FtsConsumer()) == {}
  {
    hide Claim, Refused, BothAll, InSequence, FileCopyOf, ResetAcks, RebuiltTo;
    RefreshRecords(x, me);
    var x1 := Refresh(x, me);
    var x3 := x1.(db := ResetAcks(x1.db, None, Some(me.FtsConsumer())), file := Fts.EMPTY);
    var ids := InSequence(x1.db, x1.db.memories.Keys);
    InSequenceLists(x1.db, x1.db.memories.Keys);
    ResetOthers(x1.db, me.FtsConsumer());
    RefusedReplay(x3, me, ids);
    var y := BothAll(x3, me, ids);
    assert Rebuild(x, me, scan) == y;
    ReplayedMeans(x3, y, me, ids, 0);
    forall id { ReplayedMeans(x3, y, me, ids, id); }
  }

  lemma ResetOthers(db: Db, c: Consumer)
    ensures var db' := ResetAcks(db, None, Some(c));
            && db' == db.(acks := db'.acks) && (forall id :: (c, id) !in db'.acks)
            && (c != Milvus ==> forall id :: Same(db.acks, db'.acks, (Milvus, id)))
  {}

  /** After the records `ids` were applied to an empty file: those are there and acknowledged, and no other is. */
  ghost predicate RebuiltTo(x: Machine, y: Machine, me: Local, ids: seq<MemoryId>) {
    && y == x.(file := y.file, db := x.db.(acks := y.db.acks)) && (forall id :: Same(x.db.acks, y.db.acks, (Milvus, id)))
    && (forall id :: id in y.file.marks <==> id in ids && id in x.db.memories)
    && (forall id :: id in y.file.rows <==> id in ids && LiveAt(x.db, id))
    && (forall id | id in y.file.rows :: FileCopyOf(y.file.rows[id], x.db.memories[id]))
    && (forall id :: (me.FtsConsumer(), id) in y.db.acks <==> id in ids && id in x.db.memories)
    && (forall id | (me.FtsConsumer(), id) in y.db.acks && id in x.db.memories ::
          y.db.acks[(me.FtsConsumer(), id)].version == x.db.memories[id].version)
  }

  lemma {:induction false} RefusedReplay(x: Machine, me: Local, ids: seq<MemoryId>)
    requires x.blocked && x.file == Fts.EMPTY && (forall id :: (me.FtsConsumer(), id) !in x.db.acks)
    requires forall i, j | 0 <= i < j < |ids| :: ids[i] != ids[j]
    ensures RebuiltTo(x, BothAll(x, me, ids), me, ids)
  {
    hide FtsOne, FileCopyOf;
    if ids != [] {
      var n := |ids| - 1;
      RefusedReplay(x, me, ids[..n]);
      var y, id := BothAll(x, me, ids[..n]), ids[n];
      assert MilvusOne(y, me, id, NoFault).0 == y;
      FtsCallIs(y, me, id, NoFault);
      assert id !in ids[..n];
      ReplayStep(x, y, FtsOne(y, me, id, NoFault).0, me, ids[..n], id);
      assert ids == ids[..n] + [id];
    }
  }

  lemma ReplayStep(x: Machine, y: Machine, z: Machine, me: Local, ids: seq<MemoryId>, id: MemoryId)
    requires RebuiltTo(x, y, me, ids) && id !in ids && z == FtsOne(y, me, id, NoFault).0
    ensures RebuiltTo(x, z, me, ids + [id])
  {
    hide FtsOne, FileCopyOf;
    FtsCallIs(y, me, id, NoFault);
    if id in x.db.memories {
      forall o ensures Same(x.db.acks, z.db.acks, (Milvus, o)) { assert Same(y.db.acks, z.db.acks, (Milvus, o)); }
      forall o | o != id
        ensures Same(y.file.rows, z.file.rows, o) && Same(y.file.marks, z.file.marks, o)
                && Same(y.db.acks, z.db.acks, (me.FtsConsumer(), o))
      {}
    }
  }

  lemma ReplayedMeans(x: Machine, y: Machine, me: Local, ids: seq<MemoryId>, id: MemoryId)
    requires RebuiltTo(x, y, me, ids) && forall o | o in x.db.memories :: o in ids
    ensures id in y.file.rows <==> LiveAt(x.db, id)
    ensures id in y.file.rows ==> FileCopyOf(y.file.rows[id], x.db.memories[id])
    ensures id !in PendingIds(y.db, me.FtsConsumer())
    ensures y.milvus == x.milvus && y.blocked == x.blocked && y.db.memories == x.db.memories && Same(x.db.acks, y.db.acks, (Milvus, id))
  {
    hide FileCopyOf;
  }
}
