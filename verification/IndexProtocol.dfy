/** The index sync protocol as a state machine. Any number of servers copy canonical rows into one
    shared Milvus collection and into one FTS file per host, while writers commit, the embedding
    generation moves and any worker may stop between two statements.

    Assumed: the advisory lock is held until the Milvus call returns; a Milvus upsert or delete of
    one key is atomic; primary keys are injective; a host keeps its FTS file. */
module IndexProtocol {
  import opened Wrappers
  import opened MemoryStore
  import opened StoreInvariants
  import Fts = MemoryFts

  datatype Model = Model(name: string, dim: nat)

  /** The embedding of a text by a model, known only by what was embedded with what. */
  datatype Vector = Embedding(model: Model, text: string)

  datatype MilvusRow = MilvusRow(
    version: nat, generation: nat, vector: Vector, user: string, agent: string, project: string,
    kind: string, status: Status, issueIds: seq<string>, source: seq<string>,
    category: seq<string>, createdAt: Time)

  datatype Server = Server(model: Model, fingerprint: Fingerprint)

  const MAX_EMBED_RACES := 3

  function MilvusRowOf(m: Memory, generation: nat, vector: Vector): MilvusRow {
    MilvusRow(m.version, generation, vector, m.user, m.agent, m.project, m.kind, m.status,
              m.issueIds, Fts.ExtraOf(m.extra, "source"), Fts.ExtraOf(m.extra, "category"),
              m.createdAt)
  }

  /** A name, dimension, model ID or embedding dimension that differs refuses vectors. */
  predicate Refused(meta: Meta, s: Server) {
    || meta.modelName != Some(s.model.name) || meta.vectorDim != Some(s.model.dim)
    || (meta.fingerprint.Some? && (meta.fingerprint.value.modelId != s.fingerprint.modelId
                                   || meta.fingerprint.value.embedDim != s.fingerprint.embedDim))
  }

  /** A version of a record at an embedding generation. */
  datatype Stamp = Stamp(version: nat, generation: nat)

  /** The product order. */
  predicate Leq(a: Stamp, b: Stamp) { a.version <= b.version && a.generation <= b.generation }

  /** One index worker, between two statements of `_apply_milvus` or `_apply_fts`. */
  datatype Worker =
    | MStart(sv: string, id: MemoryId, tries: nat)
    | MRead(sv: string, id: MemoryId, tries: nat, row: Memory, gen: nat)
    | MTodo(sv: string, id: MemoryId, tries: nat, row: Memory, gen: nat)
    | MReady(sv: string, id: MemoryId, tries: nat, hash: Hash, vector: Option<Vector>)
    | MLocked(sv: string, id: MemoryId, tries: nat, hash: Hash, vector: Option<Vector>,
              row: Memory, gen: nat, meta: Meta)
    | MWrote(sv: string, id: MemoryId, row: Memory, gen: nat)
    | MAcking(sv: string, id: MemoryId, row: Memory, gen: nat)
    | FStart(sv: string, id: MemoryId)
    | FRead(sv: string, id: MemoryId, row: Memory, gen: nat)
    | FSkipped(sv: string, id: MemoryId, row: Memory, gen: nat)
    | FAcking(sv: string, id: MemoryId, row: Memory, gen: nat)
  {
    /** Inside `locked_canonical`. */
    predicate Holds() { MLocked? || MWrote? }

    /** Carries a row read from the canonical table. */
    predicate HasRow() {
      MRead? || MTodo? || MLocked? || MWrote? || MAcking? || FRead? || FSkipped? || FAcking?
    }
  }

  /** The stores and the workers; the last three fields are history that no step reads:
      the stamp Milvus last took per record (tombstones included), the model recorded for each
      generation, and every stamp a worker ever read. */
  datatype World = World(
    db: Db, milvus: map<MemoryId, MilvusRow>, files: map<string, Fts.File>,
    servers: map<string, Server>, workers: map<nat, Worker>, locks: map<MemoryId, nat>,
    applied: map<MemoryId, Stamp>, models: map<nat, Model>, seen: set<(MemoryId, Stamp)>)

  datatype Event =
    | Write(db: Db)
    | Forget(ids: Option<set<MemoryId>>, c: Option<Consumer>)
    | NewGeneration(newName: Option<string>, newDim: Option<nat>, fp: Option<Fingerprint>)
    | ClaimModel(name: string, dim: nat, fp: Option<Fingerprint>)
    | Join(sv: string, server: Server)
    | Restart(sv: string, server: Server)
    | Spawn(k: nat, worker: Worker)
    | Stop(k: nat)
    | Advance(k: nat)

  function StampOf(db: Db, id: MemoryId): Stamp
    requires id in db.memories
  {
    Stamp(db.memories[id].version, db.meta.generation)
  }

  function Without<K, V>(m: map<K, V>, k: K): map<K, V> { m - {k} }

  function WithMeta(w: World, meta: Meta): World {
    w.(db := w.db.(meta := meta),
       models := if meta.modelName.Some? && meta.vectorDim.Some?
                 then w.models[meta.generation := Model(meta.modelName.value, meta.vectorDim.value)]
                 else w.models)
  }

  /** Worker `k` is gone, its connection with it, so its lock is free. */
  function Drop(w: World, k: nat): World {
    w.(workers := Without(w.workers, k),
       locks := map id | id in w.locks && w.locks[id] != k :: w.locks[id])
  }

  function Becomes(w: World, k: nat, p: Worker): World {
    w.(workers := w.workers[k := p])
  }

  function ReadCanonical(w: World, id: MemoryId): World
    requires id in w.db.memories
  {
    w.(seen := w.seen + {(id, StampOf(w.db, id))})
  }

  /** The next statement of worker `k`. A worker that finds the record lock taken waits. */
  function Step(w: World, k: nat): World
    requires k in w.workers && w.workers[k].sv in w.servers && w.workers[k].sv in w.files
  {
    var p := w.workers[k];
    match p
    case MStart(sv, id, tries) =>
      if id !in w.db.memories then Drop(w, k)
      else Becomes(ReadCanonical(w, id), k,
                   MRead(sv, id, tries, w.db.memories[id], w.db.meta.generation))
    case MRead(sv, id, tries, row, gen) =>
      if IsAcked(w.db, Milvus, id, row.version, gen) then Drop(w, k)
      else Becomes(w, k, MTodo(sv, id, tries, row, gen))
    case MTodo(sv, id, tries, row, gen) =>
      Becomes(w, k, MReady(sv, id, tries, row.contentHash,
                           if row.Deleted() then None
                           else Some(Embedding(w.servers[sv].model, row.text))))
    case MReady(sv, id, tries, hash, vector) =>
      if id in w.locks then w
      else if id !in w.db.memories then Drop(w, k)
      else Becomes(ReadCanonical(w, id).(locks := w.locks[id := k]), k,
                   MLocked(sv, id, tries, hash, vector, w.db.memories[id], w.db.meta.generation,
                           w.db.meta))
    case MLocked(sv, id, tries, hash, vector, row, gen, meta) =>
      if row.Deleted() then
        Becomes(w.(milvus := Without(w.milvus, id),
                   applied := w.applied[id := Stamp(row.version, gen)]), k, MWrote(sv, id, row, gen))
      else if vector.None? || row.contentHash != hash then
        if tries + 1 < MAX_EMBED_RACES then Becomes(Drop(w, k), k, MStart(sv, id, tries + 1))
        else Drop(w, k)
      else if Refused(meta, w.servers[sv]) then Drop(w, k)
      else
        Becomes(w.(milvus := w.milvus[id := MilvusRowOf(row, gen, vector.value)],
                   applied := w.applied[id := Stamp(row.version, gen)]), k, MWrote(sv, id, row, gen))
    case MWrote(sv, id, row, gen) =>
      Becomes(Drop(w, k), k, MAcking(sv, id, row, gen))
    case MAcking(sv, id, row, gen) =>
      Drop(w.(db := AckTx(w.db, Milvus, id, Ack(row.version, gen, row.Deleted())).0), k)
    case FStart(sv, id) =>
      if id !in w.db.memories then Drop(w, k)
      else Becomes(ReadCanonical(w, id), k,
                   FRead(sv, id, w.db.memories[id], w.db.meta.generation))
    case FRead(sv, id, row, gen) =>
      var (f, written) := Fts.Apply(w.files[sv], id, row);
      Becomes(w.(files := w.files[sv := f]), k,
              if written then FAcking(sv, id, row, gen) else FSkipped(sv, id, row, gen))
    case FSkipped(sv, id, row, gen) =>
      if id in w.files[sv].marks && w.files[sv].marks[id].version >= row.version
      then Becomes(w, k, FAcking(sv, id, row, gen))
      else Drop(w, k)
    case FAcking(sv, id, row, gen) =>
      Drop(w.(db := AckTx(w.db, Consumer.Fts(sv), id, Ack(row.version, gen, row.Deleted())).0), k)
  }

  ghost predicate Takes(w: World, e: Event, w': World) {
    match e
    case Write(db) =>
      Commit(w.db, db) && Valid(db) && Honest(db) && w' == w.(db := db)
    case Forget(ids, c) => w' == w.(db := ResetAcks(w.db, ids, c))
    case NewGeneration(name, dim, fp) => w' == WithMeta(w, Bump(w.db.meta, name, dim, fp))
    case ClaimModel(name, dim, fp) => w' == WithMeta(w, Claim(w.db.meta, name, dim, fp))
    case Join(sv, server) =>
      && sv !in w.servers && sv !in w.files && (forall id :: (Consumer.Fts(sv), id) !in w.db.acks)
      && w' == w.(servers := w.servers[sv := server], files := w.files[sv := Fts.EMPTY])
    case Restart(sv, server) =>
      // The process and every worker in it are gone; its FTS file and Milvus stay.
      && sv in w.servers
      && w' == w.(servers := w.servers[sv := server],
                  workers := map k | k in w.workers && w.workers[k].sv != sv :: w.workers[k],
                  locks := map id | id in w.locks && w.locks[id] in w.workers
                                    && w.workers[w.locks[id]].sv != sv :: w.locks[id])
    case Spawn(k, p) =>
      && k !in w.workers && p.sv in w.servers
      && (p == MStart(p.sv, p.id, 0) || p == FStart(p.sv, p.id))
      && w' == Becomes(w, k, p)
    case Stop(k) => k in w.workers && w' == Drop(w, k)
    case Advance(k) =>
      k in w.workers && w.workers[k].sv in w.servers && w.workers[k].sv in w.files && w' == Step(w, k)
  }

  ghost predicate Initial(w: World) {
    && Valid(w.db) && Honest(w.db) && w.db.acks == map[] && w.db.meta.generation >= 1
    && w.milvus == map[] && w.files == map[] && w.servers == map[] && w.workers == map[]
    && w.locks == map[] && w.applied == map[] && w.seen == {}
    && w.models == (if w.db.meta.modelName.Some? && w.db.meta.vectorDim.Some?
                    then map[w.db.meta.generation := Model(w.db.meta.modelName.value,
                                                           w.db.meta.vectorDim.value)]
                    else map[])
  }

  // ---- The invariant ----------------------------------------------------------------------

  /** The stamp names a stored version of the record that some worker read, not past now. */
  ghost predicate Known(w: World, id: MemoryId, s: Stamp) {
    && id in w.db.memories && Leq(s, StampOf(w.db, id))
    && (id, s.version) in w.db.log && (id, s) in w.seen
  }

  /** Milvus holds for `id` exactly what stamp `s` says: no row for a tombstone, else version
      s.version's columns with that text embedded by the model recorded for the generation. */
  ghost predicate Reflects(w: World, id: MemoryId, s: Stamp)
    requires (id, s.version) in w.db.log
  {
    var m := w.db.log[(id, s.version)];
    if m.Deleted() then id !in w.milvus
    else
      && id in w.milvus && s.generation in w.models
      && w.milvus[id] == MilvusRowOf(m, s.generation, Embedding(w.models[s.generation], m.text))
  }

  ghost predicate MilvusOk(w: World, id: MemoryId) {
    && (id in w.applied ==> Known(w, id, w.applied[id]) && Reflects(w, id, w.applied[id]))
    && (id in w.milvus ==> id in w.applied)
    && ((Milvus, id) in w.db.acks ==>
          id in w.applied && Leq(AckStamp(w.db.acks[(Milvus, id)]), w.applied[id])
          && Known(w, id, AckStamp(w.db.acks[(Milvus, id)])))
  }

  function AckStamp(a: Ack): Stamp { Stamp(a.version, a.generation) }

  ghost predicate FileOk(w: World, sv: string, id: MemoryId)
    requires sv in w.files
  {
    var f := w.files[sv];
    && (id in f.rows ==> id in f.marks)
    && (id in f.marks ==>
          && id in w.db.memories && f.marks[id].version <= w.db.memories[id].version
          && (id, f.marks[id].version) in w.db.log
          && Fts.HoldsRow(f, id, w.db.log[(id, f.marks[id].version)]))
    && ((Consumer.Fts(sv), id) in w.db.acks ==>
          && id in f.marks && w.db.acks[(Consumer.Fts(sv), id)].version <= f.marks[id].version
          && Known(w, id, AckStamp(w.db.acks[(Consumer.Fts(sv), id)])))
  }

  /** The row a worker carries is the stored version it was read as. */
  ghost predicate Carries(w: World, id: MemoryId, row: Memory, gen: nat) {
    Known(w, id, Stamp(row.version, gen)) && w.db.log[(id, row.version)] == row
  }

  ghost predicate WorkerOk(w: World, k: nat)
    requires k in w.workers
  {
    var p := w.workers[k];
    && p.sv in w.servers
    && (p.HasRow() ==> Carries(w, p.id, p.row, p.gen))
    && (p.MReady? || p.MLocked? ==>
          (p.vector.Some? ==> p.vector.value == Embedding(w.servers[p.sv].model, p.hash.text)))
    && (p.MLocked? ==> MetaKnown(w, p.meta, p.gen))
    && (p.MLocked? && p.id in w.applied ==> Leq(w.applied[p.id], Stamp(p.row.version, p.gen)))
    && (p.MWrote? || p.MAcking? ==>
          p.id in w.applied && Leq(Stamp(p.row.version, p.gen), w.applied[p.id]))
    && (p.FAcking? ==>
          p.sv in w.files && p.id in w.files[p.sv].marks
          && p.row.version <= w.files[p.sv].marks[p.id].version)
    && (p.Holds() ==> p.id in w.locks && w.locks[p.id] == k)
  }

  /** A fully named model read at generation `gen` is the one recorded for it. */
  ghost predicate MetaKnown(w: World, meta: Meta, gen: nat) {
    meta.modelName.Some? && meta.vectorDim.Some? ==>
      gen in w.models && w.models[gen] == Model(meta.modelName.value, meta.vectorDim.value)
  }

  ghost predicate ModelsOk(w: World) {
    && (forall g | g in w.models :: g <= w.db.meta.generation)
    && MetaKnown(w, w.db.meta, w.db.meta.generation)
    && (w.db.meta.generation in w.models ==> w.db.meta.modelName.Some? && w.db.meta.vectorDim.Some?)
  }

  /** Every stamp ever read is at most the current one, and those of one record form a chain. */
  ghost predicate SeenOk(w: World) {
    && (forall s | s in w.seen :: s.0 in w.db.memories && Leq(s.1, StampOf(w.db, s.0)))
    && (forall s, t | s in w.seen && t in w.seen && s.0 == t.0 :: Leq(s.1, t.1) || Leq(t.1, s.1))
  }

  ghost predicate LocksOk(w: World) {
    forall id | id in w.locks ::
      w.locks[id] in w.workers && w.workers[w.locks[id]].Holds() && w.workers[w.locks[id]].id == id
  }

  ghost predicate AcksOwned(w: World) {
    forall a | a in w.db.acks :: a.1 in w.db.memories && (a.0.Fts? ==> a.0.host in w.files)
  }

  ghost predicate AllMilvus(w: World) { forall id: MemoryId :: MilvusOk(w, id) }

  ghost predicate AllFiles(w: World) {
    forall sv, id: MemoryId | sv in w.files :: FileOk(w, sv, id)
  }

  ghost predicate AllWorkers(w: World) { forall k | k in w.workers :: WorkerOk(w, k) }

  ghost predicate Inv(w: World) {
    && Valid(w.db) && Honest(w.db)
    && ModelsOk(w) && SeenOk(w) && LocksOk(w) && AcksOwned(w)
    && w.servers.Keys <= w.files.Keys
    && AllMilvus(w) && AllFiles(w) && AllWorkers(w)
  }

  // ---- Frames -----------------------------------------------------------------------------

  /** What no step takes back: records, their log, their stamps, recorded models, past reads. */
  ghost predicate Grows(w: World, w': World) {
    && (forall id | id in w.db.memories ::
          id in w'.db.memories && Leq(StampOf(w.db, id), StampOf(w'.db, id)))
    && (forall e | e in w.db.log :: e in w'.db.log && w'.db.log[e] == w.db.log[e])
    && (forall g | g in w.models :: g in w'.models && w'.models[g] == w.models[g])
    && w.seen <= w'.seen
  }

  ghost predicate Same<K, V>(m: map<K, V>, m': map<K, V>, k: K) {
    (k in m <==> k in m') && (k in m && k in m' ==> m[k] == m'[k])
  }

  ghost predicate OnlyKept<K, V>(m: map<K, V>, m': map<K, V>, k: K) {
    k in m' ==> k in m && m'[k] == m[k]
  }

  lemma MilvusFrame(w: World, w': World, id: MemoryId)
    requires Grows(w, w') && MilvusOk(w, id)
    requires Same(w.milvus, w'.milvus, id) && Same(w.applied, w'.applied, id)
    requires OnlyKept(w.db.acks, w'.db.acks, (Milvus, id))
    ensures MilvusOk(w', id)
  {}

  lemma FileFrame(w: World, w': World, sv: string, id: MemoryId)
    requires Grows(w, w') && sv in w.files && sv in w'.files && FileOk(w, sv, id)
    requires Same(w.files[sv].rows, w'.files[sv].rows, id)
    requires Same(w.files[sv].marks, w'.files[sv].marks, id)
    requires OnlyKept(w.db.acks, w'.db.acks, (Consumer.Fts(sv), id))
    ensures FileOk(w', sv, id)
  {}

  /** What a worker relies on, beyond what only grows, is still there. */
  ghost predicate Undisturbed(w: World, w': World, k: nat)
    requires k in w.workers
  {
    var p := w.workers[k];
    && k in w'.workers && w'.workers[k] == p
    && Same(w.servers, w'.servers, p.sv)
    && (p.MLocked? ==> Same(w.applied, w'.applied, p.id))
    && (p.id in w.applied ==> p.id in w'.applied && Leq(w.applied[p.id], w'.applied[p.id]))
    && (p.sv in w.files && p.id in w.files[p.sv].marks ==>
          p.sv in w'.files && p.id in w'.files[p.sv].marks
          && w.files[p.sv].marks[p.id].version <= w'.files[p.sv].marks[p.id].version)
    && (p.Holds() ==> Same(w.locks, w'.locks, p.id))
  }

  lemma WorkerFrame(w: World, w': World, k: nat)
    requires Grows(w, w') && k in w.workers && WorkerOk(w, k) && Undisturbed(w, w', k)
    ensures WorkerOk(w', k)
  {}

  lemma GrowsKeys(w: World, w': World)
    requires Grows(w, w')
    ensures w.db.memories.Keys <= w'.db.memories.Keys
  {}

  /** A step that only adds to the database side keeps everything else. */
  lemma DbFrame(w: World, w': World)
    requires Inv(w) && Grows(w, w')
    requires w' == w.(db := w'.db, models := w'.models, seen := w'.seen)
    requires forall a | a in w'.db.acks :: OnlyKept(w.db.acks, w'.db.acks, a)
    ensures AllMilvus(w') && AllFiles(w') && AllWorkers(w') && LocksOk(w') && AcksOwned(w')
  {
    hide Valid, Honest, MilvusOk, FileOk, WorkerOk, ModelsOk, SeenOk, Grows;
    forall id: MemoryId ensures MilvusOk(w', id) {
      assert OnlyKept(w.db.acks, w'.db.acks, (Milvus, id));
      MilvusFrame(w, w', id);
    }
    forall sv, id: MemoryId | sv in w'.files ensures FileOk(w', sv, id) {
      assert OnlyKept(w.db.acks, w'.db.acks, (Consumer.Fts(sv), id));
      FileFrame(w, w', sv, id);
    }
    forall k | k in w'.workers ensures WorkerOk(w', k) { WorkerFrame(w, w', k); }
    GrowsKeys(w, w');
  }

  // ---- Every event keeps the invariant ----------------------------------------------------

  lemma CommitGrows(w: World, db: Db)
    requires Valid(w.db) && Commit(w.db, db) && Valid(db)
    ensures Grows(w, w.(db := db))
  {
    forall id | id in w.db.memories ensures Leq(StampOf(w.db, id), StampOf(db, id)) {
      assert Kept(w.db, db, id) || Advanced(w.db, db, id);
    }
  }

  lemma SeenFrame(w: World, w': World)
    requires SeenOk(w) && Grows(w, w') && w'.seen == w.seen
    ensures SeenOk(w')
  {
    forall s | s in w'.seen ensures s.0 in w'.db.memories && Leq(s.1, StampOf(w'.db, s.0)) {
      assert Leq(StampOf(w.db, s.0), StampOf(w'.db, s.0));
    }
  }

  lemma WriteKeeps(w: World, db: Db)
    requires Inv(w) && Commit(w.db, db) && Valid(db) && Honest(db)
    ensures Inv(w.(db := db)) && Grows(w, w.(db := db))
  {
    hide Valid, Honest, AllMilvus, AllFiles, AllWorkers, LocksOk, AcksOwned, Grows, SeenOk;
    var w' := w.(db := db);
    CommitGrows(w, db);
    DbFrame(w, w');
    SeenFrame(w, w');
  }

  lemma ResetGrows(w: World, ids: Option<set<MemoryId>>, c: Option<Consumer>)
    ensures Grows(w, w.(db := ResetAcks(w.db, ids, c)))
  {}

  lemma ResetValid(db: Db, ids: Option<set<MemoryId>>, c: Option<Consumer>)
    requires Valid(db) && Honest(db)
    ensures Valid(ResetAcks(db, ids, c)) && Honest(ResetAcks(db, ids, c))
  {
    forall id | id in db.memories ensures LogOf(ResetAcks(db, ids, c), id) {
      assert LogOf(db, id);
    }
  }

  lemma ForgetKeeps(w: World, ids: Option<set<MemoryId>>, c: Option<Consumer>)
    requires Inv(w)
    ensures var w' := w.(db := ResetAcks(w.db, ids, c)); Inv(w') && Grows(w, w')
  {
    hide Valid, Honest, AllMilvus, AllFiles, AllWorkers, LocksOk, AcksOwned, Grows, SeenOk;
    var w' := w.(db := ResetAcks(w.db, ids, c));
    ResetGrows(w, ids, c);
    ResetValid(w.db, ids, c);
    DbFrame(w, w');
    SeenFrame(w, w');
  }

  /** A change of the generation's record either starts the next one or leaves a recorded model. */
  predicate NextMeta(meta: Meta, meta': Meta) {
    || meta'.generation == meta.generation + 1
    || (meta'.generation == meta.generation
        && (meta.modelName.Some? ==> meta'.modelName == meta.modelName
                                     && meta'.vectorDim == meta.vectorDim))
  }

  lemma MetaGrows(w: World, meta: Meta)
    requires ModelsOk(w) && NextMeta(w.db.meta, meta)
    ensures Grows(w, WithMeta(w, meta)) && ModelsOk(WithMeta(w, meta))
  {}

  lemma MetaValid(db: Db, meta: Meta)
    requires Valid(db) && Honest(db)
    ensures Valid(db.(meta := meta)) && Honest(db.(meta := meta))
  {
    forall id | id in db.memories ensures LogOf(db.(meta := meta), id) {
      assert LogOf(db, id);
    }
  }

  lemma MetaKeeps(w: World, meta: Meta)
    requires Inv(w) && NextMeta(w.db.meta, meta)
    ensures Inv(WithMeta(w, meta)) && Grows(w, WithMeta(w, meta))
  {
    hide Valid, Honest, AllMilvus, AllFiles, AllWorkers, LocksOk, AcksOwned, Grows, SeenOk, ModelsOk;
    var w' := WithMeta(w, meta);
    MetaGrows(w, meta);
    MetaValid(w.db, meta);
    DbFrame(w, w');
    SeenFrame(w, w');
  }

  /** Reading the current row adds the top of the chain. */
  lemma ReadKeeps(w: World, id: MemoryId)
    requires Inv(w) && id in w.db.memories
    ensures var w' := ReadCanonical(w, id);
            Inv(w') && Grows(w, w') && Carries(w', id, w.db.memories[id], w.db.meta.generation)
            && (forall s | s in w.seen && s.0 == id :: Leq(s.1, StampOf(w.db, id)))
  {
    hide Valid, Honest, AllMilvus, AllFiles, AllWorkers, LocksOk, AcksOwned;
    var w' := ReadCanonical(w, id);
    DbFrame(w, w');
    CurrentLogged(w.db, id);
  }

  lemma CurrentLogged(db: Db, id: MemoryId)
    requires Valid(db) && id in db.memories
    ensures (id, db.memories[id].version) in db.log
            && db.log[(id, db.memories[id].version)] == db.memories[id]
  {
    assert LogOf(db, id);
  }

  /** Only workers and locks change, and every lock still has its holder. */
  lemma WorkersFrame(w: World, w': World)
    requires Inv(w) && w' == w.(workers := w'.workers, locks := w'.locks)
    requires LocksOk(w')
    requires forall k | k in w'.workers ::
               (k in w.workers && w'.workers[k] == w.workers[k]
                && (w.workers[k].Holds() ==> Same(w.locks, w'.locks, w.workers[k].id)))
               || WorkerOk(w', k)
    ensures Inv(w')
  {
    hide Valid, Honest, LocksOk, AcksOwned, SeenOk, ModelsOk, MilvusOk, FileOk, WorkerOk, Grows;
    SelfGrows(w, w');
    forall id: MemoryId ensures MilvusOk(w', id) { MilvusFrame(w, w', id); }
    forall sv, id: MemoryId | sv in w'.files ensures FileOk(w', sv, id) { FileFrame(w, w', sv, id); }
    forall k | k in w'.workers ensures WorkerOk(w', k) {
      if k in w.workers && w'.workers[k] == w.workers[k]
         && (w.workers[k].Holds() ==> Same(w.locks, w'.locks, w.workers[k].id)) {
        WorkerFrame(w, w', k);
      }
    }
    QuietFrame(w, w');
  }

  lemma SelfGrows(w: World, w': World)
    requires w'.db == w.db && w'.models == w.models && w'.seen == w.seen
    ensures Grows(w, w')
  {}

  lemma QuietFrame(w: World, w': World)
    requires ModelsOk(w) && SeenOk(w) && AcksOwned(w)
    requires w'.db == w.db && w'.models == w.models && w'.seen == w.seen
    requires w.files.Keys <= w'.files.Keys
    ensures ModelsOk(w') && SeenOk(w') && AcksOwned(w')
  {}

  lemma DropKeeps(w: World, k: nat)
    requires Inv(w) && k in w.workers
    ensures Inv(Drop(w, k)) && Grows(w, Drop(w, k))
  {
    hide Inv, Grows, WorkerOk, LocksOk;
    Parts(w);
    DropLocks(w, k);
    SelfGrows(w, Drop(w, k));
    WorkersFrame(w, Drop(w, k));
  }

  lemma DropLocks(w: World, k: nat)
    requires LocksOk(w) && AllWorkers(w) && k in w.workers
    ensures LocksOk(Drop(w, k))
    ensures forall j | j in w.workers && j != k && w.workers[j].Holds() ::
              Same(w.locks, Drop(w, k).locks, w.workers[j].id)
  {
    hide WorkerOk;
    forall j | j in w.workers && j != k && w.workers[j].Holds()
      ensures Same(w.locks, Drop(w, k).locks, w.workers[j].id)
    {
      LockHeld(w, j);
    }
  }

  lemma BecomesKeeps(w: World, k: nat, p: Worker)
    requires Inv(w) && WorkerOk(Becomes(w, k, p), k)
    requires k in w.workers ==> w.workers[k].Holds() ==> p.Holds() && p.id == w.workers[k].id
    ensures Inv(Becomes(w, k, p)) && Grows(w, Becomes(w, k, p))
  {
    hide Valid, Honest, AcksOwned, SeenOk, ModelsOk, AllMilvus, AllFiles;
    WorkersFrame(w, Becomes(w, k, p));
  }

  lemma JoinKeeps(w: World, sv: string, server: Server)
    requires Inv(w) && sv !in w.servers && sv !in w.files
    requires forall id :: (Consumer.Fts(sv), id) !in w.db.acks
    ensures var w' := w.(servers := w.servers[sv := server], files := w.files[sv := Fts.EMPTY]);
            Inv(w') && Grows(w, w')
  {
    hide Valid, Honest, LocksOk, AcksOwned, SeenOk, ModelsOk, MilvusOk, WorkerOk, Grows;
    var w' := w.(servers := w.servers[sv := server], files := w.files[sv := Fts.EMPTY]);
    SelfGrows(w, w');
    forall id: MemoryId ensures MilvusOk(w', id) { MilvusFrame(w, w', id); }
    forall h, id: MemoryId | h in w'.files ensures FileOk(w', h, id) {
      if h != sv { FileFrame(w, w', h, id); }
    }
    forall k | k in w'.workers ensures WorkerOk(w', k) {
      HostKnown(w, k);
      WorkerFrame(w, w', k);
    }
    QuietFrame(w, w');
    LocksFrame(w, w');
  }

  lemma HostKnown(w: World, k: nat)
    requires k in w.workers && WorkerOk(w, k)
    ensures w.workers[k].sv in w.servers
  {}

  lemma LocksFrame(w: World, w': World)
    requires LocksOk(w) && w'.workers == w.workers && w'.locks == w.locks
    ensures LocksOk(w')
  {}

  lemma RestartKeeps(w: World, sv: string, server: Server)
    requires Inv(w) && sv in w.servers
    ensures forall w' | Takes(w, Restart(sv, server), w') :: Inv(w') && Grows(w, w')
  {
    hide Valid, Honest, AcksOwned, SeenOk, ModelsOk, MilvusOk, FileOk, WorkerOk, Grows;
    forall w' | Takes(w, Restart(sv, server), w') ensures Inv(w') && Grows(w, w') {
      SelfGrows(w, w');
      forall id: MemoryId ensures MilvusOk(w', id) { MilvusFrame(w, w', id); }
      forall h, id: MemoryId | h in w'.files ensures FileOk(w', h, id) { FileFrame(w, w', h, id); }
      forall k | k in w'.workers ensures WorkerOk(w', k) {
        LockHeld(w, k);
        WorkerFrame(w, w', k);
      }
      QuietFrame(w, w');
    }
  }

  lemma LockHeld(w: World, k: nat)
    requires k in w.workers && WorkerOk(w, k)
    ensures w.workers[k].Holds() ==> w.workers[k].id in w.locks && w.locks[w.workers[k].id] == k
  {}

  // ---- The statements of one worker -------------------------------------------------------

  lemma ReadStepKeeps(w: World, k: nat)
    requires Inv(w) && k in w.workers && w.workers[k].sv in w.files
    requires w.workers[k].MStart? || w.workers[k].FStart?
    ensures HostOf(w, k) && Inv(Step(w, k)) && Grows(w, Step(w, k))
  {
    hide Valid, Honest, AcksOwned, SeenOk, ModelsOk, AllMilvus, AllFiles, LocksOk, AllWorkers,
      Grows, Carries, Inv;
    HostIn(w, k);
    var p := w.workers[k];
    if p.id !in w.db.memories {
      DropKeeps(w, k);
    } else {
      ReadKeeps(w, p.id);
      var r := ReadCanonical(w, p.id);
      var q := if p.MStart? then MRead(p.sv, p.id, p.tries, w.db.memories[p.id], w.db.meta.generation)
               else FRead(p.sv, p.id, w.db.memories[p.id], w.db.meta.generation);
      CarriesSame(r, Step(w, k), p.id, w.db.memories[p.id], w.db.meta.generation);
      BecomesKeeps(r, k, q);
      GrowsTransitive(w, r, Step(w, k));
    }
  }

  predicate HostOf(w: World, k: nat) {
    k in w.workers && w.workers[k].sv in w.servers && w.workers[k].sv in w.files
  }

  lemma HostIn(w: World, k: nat)
    requires Inv(w) && k in w.workers
    ensures HostOf(w, k) && WorkerOk(w, k)
  {}

  /** What a worker carries depends on the rows and the reads alone. */
  lemma CarriesSame(w: World, w': World, id: MemoryId, row: Memory, gen: nat)
    requires Carries(w, id, row, gen) && w'.db == w.db && w'.seen == w.seen
    ensures Carries(w', id, row, gen)
  {}

  lemma GrowsTransitive(a: World, b: World, c: World)
    requires Grows(a, b) && Grows(b, c)
    ensures Grows(a, c)
  {
    forall id | id in a.db.memories
      ensures id in c.db.memories && Leq(StampOf(a.db, id), StampOf(c.db, id))
    {
      assert Leq(StampOf(a.db, id), StampOf(b.db, id));
      assert Leq(StampOf(b.db, id), StampOf(c.db, id));
    }
  }

  lemma TodoStepKeeps(w: World, k: nat)
    requires Inv(w) && k in w.workers && (w.workers[k].MRead? || w.workers[k].MTodo?)
    ensures HostOf(w, k) && Inv(Step(w, k)) && Grows(w, Step(w, k))
  {
    hide Valid, Honest, AcksOwned, SeenOk, ModelsOk, AllMilvus, AllFiles, LocksOk, AllWorkers,
      Grows, Inv;
    HostIn(w, k);
    var p := w.workers[k];
    if p.MRead? && IsAcked(w.db, Milvus, p.id, p.row.version, p.gen) {
      DropKeeps(w, k);
    } else {
      if p.MTodo? { RowHonest(w, p.id, p.row, p.gen); }
      BecomesKeeps(w, k, Step(w, k).workers[k]);
    }
  }

  lemma RowHonest(w: World, id: MemoryId, row: Memory, gen: nat)
    requires Inv(w) && Carries(w, id, row, gen)
    ensures row.contentHash.text == row.text
  {}

  /** Taking the lock reads a row no older than anything Milvus took for the record. */
  lemma LockedOk(w: World, k: nat)
    requires k in w.workers && w.workers[k].MReady? && HostOf(w, k) && WorkerOk(w, k) && ModelsOk(w)
    requires var id := w.workers[k].id;
             && id !in w.locks && id in w.db.memories
             && Carries(Step(w, k), id, w.db.memories[id], w.db.meta.generation)
             && (id in w.applied ==> Leq(w.applied[id], StampOf(w.db, id)))
    ensures WorkerOk(Step(w, k), k)
  {
    hide Carries;
  }

  lemma LockStepIs(w: World, k: nat)
    requires k in w.workers && w.workers[k].MReady? && HostOf(w, k)
    ensures var p, id := w.workers[k], w.workers[k].id;
            Step(w, k) == if id in w.locks then w
                          else if id !in w.db.memories then Drop(w, k)
                          else Becomes(ReadCanonical(w, id).(locks := w.locks[id := k]), k,
                                       MLocked(p.sv, id, p.tries, p.hash, p.vector, w.db.memories[id],
                                               w.db.meta.generation, w.db.meta))
  {}

  lemma LockStepKeeps(w: World, k: nat)
    requires Inv(w) && k in w.workers && w.workers[k].MReady?
    ensures HostOf(w, k) && Inv(Step(w, k)) && Grows(w, Step(w, k))
  {
    hide Inv, Grows, Step, Drop, ReadCanonical;
    HostIn(w, k);
    LockStepIs(w, k);
    SelfGrows(w, w);
    if w.workers[k].id !in w.locks {
      if w.workers[k].id !in w.db.memories { DropKeeps(w, k); } else { TakeLockKeeps(w, k); }
    }
  }

  lemma TakeLockKeeps(w: World, k: nat)
    requires Inv(w) && k in w.workers && w.workers[k].MReady? && HostOf(w, k)
    requires w.workers[k].id !in w.locks && w.workers[k].id in w.db.memories
    ensures Inv(Step(w, k)) && Grows(w, Step(w, k))
  {
    hide Inv, Grows, Step, Carries, WorkerOk, ModelsOk, SeenOk, LocksOk, AllWorkers;
    HostIn(w, k);
    LockStepIs(w, k);
    var id, r, w' := w.workers[k].id, ReadCanonical(w, w.workers[k].id), Step(w, k);
    ReadKeeps(w, id);
    CarriesSame(r, w', id, w.db.memories[id], w.db.meta.generation);
    if id in w.applied { AppliedSeen(w, id); }
    Parts(w);
    LockedOk(w, k);
    Parts(r);
    TakeLockFrame(r, w', k);
    WorkersFrame(r, w');
    SelfGrows(r, w');
    GrowsTransitive(w, r, w');
  }

  lemma TakeLockFrame(w: World, w': World, k: nat)
    requires LocksOk(w) && AllWorkers(w) && k in w.workers && w.workers[k].id !in w.locks
    requires w'.locks == w.locks[w.workers[k].id := k] && k in w'.workers
    requires w'.workers == w.workers[k := w'.workers[k]]
    requires w'.workers[k].Holds() && w'.workers[k].id == w.workers[k].id
    ensures LocksOk(w')
    ensures forall j | j in w.workers && j != k && w.workers[j].Holds() ::
              Same(w.locks, w'.locks, w.workers[j].id)
  {
    forall j | j in w.workers && j != k && w.workers[j].Holds()
      ensures Same(w.locks, w'.locks, w.workers[j].id)
    {
      LockHeld(w, j);
    }
  }

  lemma Parts(w: World)
    requires Inv(w)
    ensures LocksOk(w) && ModelsOk(w) && AllWorkers(w)
  {}

  lemma AppliedSeen(w: World, id: MemoryId)
    requires Inv(w) && id in w.applied
    ensures (id, w.applied[id]) in w.seen
  {
    assert MilvusOk(w, id);
  }

  /** The world right after the Milvus call: `row` is gone, or `id` holds what it says. */
  function MilvusTakes(w: World, id: MemoryId, stamp: Stamp, row: Option<MilvusRow>): World {
    w.(milvus := if row.None? then Without(w.milvus, id) else w.milvus[id := row.value],
       applied := w.applied[id := stamp])
  }

  /** One Milvus call under the record lock, with a row at least as new as the last one taken. */
  lemma MilvusTakesKeeps(w: World, k: nat, stamp: Stamp, row: Option<MilvusRow>, p: Worker)
    requires Inv(w) && k in w.workers && w.workers[k].MLocked?
    requires var id := w.workers[k].id;
             var w' := MilvusTakes(w, id, stamp, row);
             && Known(w, id, stamp) && Reflects(w', id, stamp)
             && (id in w.applied ==> Leq(w.applied[id], stamp))
             && p.Holds() && p.id == id && WorkerOk(Becomes(w', k, p), k)
    ensures Inv(Becomes(MilvusTakes(w, w.workers[k].id, stamp, row), k, p))
  {
    hide Valid, Honest, AcksOwned, SeenOk, ModelsOk, FileOk, Grows, LocksOk, WorkerOk, Reflects;
    var id := w.workers[k].id;
    var w' := Becomes(MilvusTakes(w, id, stamp, row), k, p);
    SelfGrows(w, w');
    forall o: MemoryId ensures MilvusOk(w', o) {
      if o == id {
        ReflectsSame(MilvusTakes(w, id, stamp, row), w', id, stamp);
        TakenOk(w, w', id, stamp);
      } else {
        MilvusFrame(w, w', o);
      }
    }
    forall h, o: MemoryId | h in w'.files ensures FileOk(w', h, o) { FileFrame(w, w', h, o); }
    forall j | j in w'.workers ensures WorkerOk(w', j) {
      if j != k {
        if w.workers[j].Holds() { AloneInLock(w, k, j); }
        AppliedGrows(w, j, id, stamp);
        WorkerFrame(w, w', j);
      }
    }
    QuietFrame(w, w');
    HolderFrame(w, k, w');
  }

  lemma ReflectsSame(w: World, w': World, id: MemoryId, s: Stamp)
    requires (id, s.version) in w.db.log && Reflects(w, id, s)
    requires w'.db == w.db && w'.milvus == w.milvus && w'.models == w.models
    ensures Reflects(w', id, s)
  {}

  lemma TakenOk(w: World, w': World, id: MemoryId, stamp: Stamp)
    requires MilvusOk(w, id) && Known(w, id, stamp)
    requires id in w.applied ==> Leq(w.applied[id], stamp)
    requires w'.db == w.db && w'.seen == w.seen && w'.models == w.models
    requires w'.applied == w.applied[id := stamp] && Reflects(w', id, stamp)
    ensures MilvusOk(w', id)
  {}

  lemma AloneInLock(w: World, k: nat, j: nat)
    requires k in w.workers && j in w.workers && j != k && WorkerOk(w, k) && WorkerOk(w, j)
    requires w.workers[k].Holds() && w.workers[j].Holds()
    ensures w.workers[j].id != w.workers[k].id
  {}

  lemma AppliedGrows(w: World, j: nat, id: MemoryId, stamp: Stamp)
    requires j in w.workers && (id in w.applied ==> Leq(w.applied[id], stamp))
    ensures var p := w.workers[j]; var applied := w.applied[id := stamp];
            p.id in w.applied ==> p.id in applied && Leq(w.applied[p.id], applied[p.id])
  {}

  lemma HolderFrame(w: World, k: nat, w': World)
    requires LocksOk(w) && k in w.workers && w'.locks == w.locks
    requires k in w'.workers && w'.workers == w.workers[k := w'.workers[k]]
    requires w'.workers[k].Holds() && w'.workers[k].id == w.workers[k].id
    ensures LocksOk(w')
  {}

  /** The row written is the one locked, so it carries the embedding of its own version's text by
      the model recorded for its generation. */
  lemma WriteReflects(w: World, k: nat, p: Worker, s: Stamp)
    requires Inv(w) && k in w.workers && p == w.workers[k] && p.MLocked? && HostOf(w, k)
    requires s == Stamp(p.row.version, p.gen)
    requires p.row.Deleted()
             || (p.vector.Some? && p.row.contentHash == p.hash && !Refused(p.meta, w.servers[p.sv]))
    ensures Known(w, p.id, s) && w.db.log[(p.id, p.row.version)] == p.row
    ensures p.id in w.applied ==> Leq(w.applied[p.id], s)
    ensures !p.row.Deleted() ==>
              s.generation in w.models
              && p.vector.value == Embedding(w.models[s.generation], p.row.text)
  {
    hide Valid, AcksOwned, SeenOk, ModelsOk, AllMilvus, AllFiles, LocksOk;
    assert WorkerOk(w, k);
    RowHonest(w, p.id, p.row, p.gen);
  }

  function Written(p: Worker): Option<MilvusRow>
    requires p.MLocked? && (p.row.Deleted() || p.vector.Some?)
  {
    if p.row.Deleted() then None else Some(MilvusRowOf(p.row, p.gen, p.vector.value))
  }

  /** The locked call goes through: a tombstone, or the embedded text under this server's model. */
  predicate Writes(w: World, k: nat)
    requires HostOf(w, k) && w.workers[k].MLocked?
  {
    var p := w.workers[k];
    p.row.Deleted()
    || (p.vector.Some? && p.row.contentHash == p.hash && !Refused(p.meta, w.servers[p.sv]))
  }

  lemma WriteStepIs(w: World, k: nat)
    requires HostOf(w, k) && w.workers[k].MLocked?
    ensures var p := w.workers[k];
            if Writes(w, k) then
              Step(w, k) == Becomes(MilvusTakes(w, p.id, Stamp(p.row.version, p.gen), Written(p)), k,
                                    MWrote(p.sv, p.id, p.row, p.gen))
            else
              Step(w, k) == Drop(w, k) || Step(w, k) == Becomes(Drop(w, k), k, MStart(p.sv, p.id, p.tries + 1))
  {
    hide Refused, MilvusRowOf;
  }

  lemma WriteStepKeeps(w: World, k: nat)
    requires Inv(w) && k in w.workers && w.workers[k].MLocked?
    ensures HostOf(w, k) && Inv(Step(w, k)) && Grows(w, Step(w, k))
  {
    hide Inv, Grows, Step, Written, MilvusTakes;
    HostIn(w, k);
    WriteStepIs(w, k);
    if Writes(w, k) {
      LockedWriteKeeps(w, k);
    } else {
      DropKeeps(w, k);
      if Step(w, k) != Drop(w, k) {
        BecomesKeeps(Drop(w, k), k, Step(w, k).workers[k]);
        GrowsTransitive(w, Drop(w, k), Step(w, k));
      }
    }
  }

  lemma LockedWriteKeeps(w: World, k: nat)
    requires Inv(w) && HostOf(w, k) && w.workers[k].MLocked? && Writes(w, k)
    ensures Inv(Step(w, k)) && Grows(w, Step(w, k))
  {
    hide Inv, Grows, Step, Refused, MilvusRowOf, Known;
    HostIn(w, k);
    WriteStepIs(w, k);
    var p, w' := w.workers[k], Step(w, k);
    var s := Stamp(p.row.version, p.gen);
    WriteReflects(w, k, p, s);
    CarriesSame(w, w', p.id, p.row, p.gen);
    MilvusTakesKeeps(w, k, s, Written(p), w'.workers[k]);
    SelfGrows(w, w');
  }

  lemma UnlockStepKeeps(w: World, k: nat)
    requires Inv(w) && k in w.workers && w.workers[k].MWrote?
    ensures HostOf(w, k) && Inv(Step(w, k)) && Grows(w, Step(w, k))
  {
    hide Inv, Grows, Carries;
    HostIn(w, k);
    var p := w.workers[k];
    DropKeeps(w, k);
    CarriesSame(w, Step(w, k), p.id, p.row, p.gen);
    BecomesKeeps(Drop(w, k), k, MAcking(p.sv, p.id, p.row, p.gen));
    GrowsTransitive(w, Drop(w, k), Step(w, k));
  }

  lemma AckValid(db: Db, c: Consumer, id: MemoryId, ack: Ack)
    requires Valid(db) && Honest(db)
    ensures Valid(AckTx(db, c, id, ack).0) && Honest(AckTx(db, c, id, ack).0)
  {
    forall o | o in db.memories ensures LogOf(AckTx(db, c, id, ack).0, o) { assert LogOf(db, o); }
  }

  /** A sound acknowledgement keeps everything: it names what its consumer already holds. */
  lemma AckKeeps(w: World, c: Consumer, id: MemoryId, ack: Ack)
    requires Inv(w) && Known(w, id, AckStamp(ack))
    requires match c
             case Milvus => id in w.applied && Leq(AckStamp(ack), w.applied[id])
             case Fts(sv) => sv in w.files && id in w.files[sv].marks
                             && ack.version <= w.files[sv].marks[id].version
    ensures var w' := w.(db := AckTx(w.db, c, id, ack).0); Inv(w') && Grows(w, w')
  {
    hide Valid, Honest, SeenOk, ModelsOk, LocksOk, WorkerOk, MilvusOk, FileOk, Known, Grows;
    var w' := w.(db := AckTx(w.db, c, id, ack).0);
    AckValid(w.db, c, id, ack);
    AckGrows(w, c, id, ack);
    KnownRecord(w, id, AckStamp(ack));
    forall o: MemoryId ensures MilvusOk(w', o) { AckMilvus(w, c, id, ack, o); }
    forall sv, o: MemoryId | sv in w'.files ensures FileOk(w', sv, o) {
      AckFile(w, c, id, ack, sv, o);
    }
    forall j | j in w'.workers ensures WorkerOk(w', j) { WorkerFrame(w, w', j); }
    SeenFrame(w, w');
    ModelsFrame(w, w');
    LocksFrame(w, w');
  }

  lemma AckGrows(w: World, c: Consumer, id: MemoryId, ack: Ack)
    ensures Grows(w, w.(db := AckTx(w.db, c, id, ack).0))
  {}

  lemma KnownRecord(w: World, id: MemoryId, s: Stamp)
    requires Known(w, id, s)
    ensures id in w.db.memories
  {}

  lemma AckMilvus(w: World, c: Consumer, id: MemoryId, ack: Ack, o: MemoryId)
    requires MilvusOk(w, o) && Known(w, id, AckStamp(ack))
    requires c.Milvus? ==> id in w.applied && Leq(AckStamp(ack), w.applied[id])
    ensures MilvusOk(w.(db := AckTx(w.db, c, id, ack).0), o)
  {}

  lemma AckFile(w: World, c: Consumer, id: MemoryId, ack: Ack, sv: string, o: MemoryId)
    requires sv in w.files && FileOk(w, sv, o) && Known(w, id, AckStamp(ack))
    requires c == Consumer.Fts(sv) ==>
               id in w.files[sv].marks && ack.version <= w.files[sv].marks[id].version
    ensures FileOk(w.(db := AckTx(w.db, c, id, ack).0), sv, o)
  {}

  lemma ModelsFrame(w: World, w': World)
    requires ModelsOk(w) && w'.models == w.models && w'.db.meta == w.db.meta
    ensures ModelsOk(w')
  {}

  lemma AckStepKeeps(w: World, k: nat)
    requires Inv(w) && k in w.workers && (w.workers[k].MAcking? || w.workers[k].FAcking?)
    ensures HostOf(w, k) && Inv(Step(w, k)) && Grows(w, Step(w, k))
  {
    hide Inv, Grows, AckTx;
    HostIn(w, k);
    var p := w.workers[k];
    var c := if p.MAcking? then Milvus else Consumer.Fts(p.sv);
    var ack := Ack(p.row.version, p.gen, p.row.Deleted());
    AckKeeps(w, c, p.id, ack);
    var mid := w.(db := AckTx(w.db, c, p.id, ack).0);
    DropKeeps(mid, k);
    GrowsTransitive(w, mid, Drop(mid, k));
  }

  /** One FTS transaction; the watermark only rises. */
  lemma FtsStepKeeps(w: World, k: nat)
    requires Inv(w) && k in w.workers && w.workers[k].FRead?
    ensures HostOf(w, k) && Inv(Step(w, k)) && Grows(w, Step(w, k))
  {
    hide Valid, Honest, SeenOk, ModelsOk, LocksOk, WorkerOk, MilvusOk, Grows, FileOk, AcksOwned, Step;
    HostIn(w, k);
    FtsStepIs(w, k);
    var p, w' := w.workers[k], Step(w, k);
    SelfGrows(w, w');
    FtsStepWorker(w, k);
    forall o: MemoryId ensures MilvusOk(w', o) { MilvusFrame(w, w', o); }
    forall sv, o: MemoryId | sv in w'.files ensures FileOk(w', sv, o) {
      if sv == p.sv && o == p.id { FtsStepFile(w, k); } else { FileFrame(w, w', sv, o); }
    }
    forall j | j in w'.workers ensures WorkerOk(w', j) {
      if j != k {
        FtsStepOther(w, k, j);
        WorkerFrame(w, w', j);
      }
    }
    QuietFrame(w, w');
    UnheldFrame(w, k, w');
  }

  /** The FTS transaction touches one record of one host's file and its own worker. */
  lemma FtsStepIs(w: World, k: nat)
    requires k in w.workers && w.workers[k].FRead? && HostOf(w, k)
    ensures var p, w' := w.workers[k], Step(w, k);
            && p.sv in w'.files && k in w'.workers
            && w' == w.(files := w.files[p.sv := w'.files[p.sv]], workers := w.workers[k := w'.workers[k]])
            && (forall o: MemoryId | o != p.id ::
                  && Same(w.files[p.sv].rows, w'.files[p.sv].rows, o)
                  && Same(w.files[p.sv].marks, w'.files[p.sv].marks, o))
            && (p.id in w.files[p.sv].marks ==>
                  p.id in w'.files[p.sv].marks
                  && w.files[p.sv].marks[p.id].version <= w'.files[p.sv].marks[p.id].version)
  {
    hide Fts.RowOf;
  }

  lemma FtsStepOther(w: World, k: nat, j: nat)
    requires k in w.workers && w.workers[k].FRead? && HostOf(w, k) && j in w.workers && j != k
    ensures Undisturbed(w, Step(w, k), j)
  {
    hide Step;
    FtsStepIs(w, k);
    assert w.workers[j].id != w.workers[k].id ==>
        Same(w.files[w.workers[k].sv].marks, Step(w, k).files[w.workers[k].sv].marks, w.workers[j].id);
  }

  lemma FtsStepWorker(w: World, k: nat)
    requires k in w.workers && w.workers[k].FRead? && HostOf(w, k) && WorkerOk(w, k)
    ensures WorkerOk(Step(w, k), k)
  {}

  lemma FtsStepFile(w: World, k: nat)
    requires k in w.workers && w.workers[k].FRead? && HostOf(w, k) && WorkerOk(w, k)
    requires FileOk(w, w.workers[k].sv, w.workers[k].id)
    ensures FileOk(Step(w, k), w.workers[k].sv, w.workers[k].id)
  {}

  lemma UnheldFrame(w: World, k: nat, w': World)
    requires LocksOk(w) && k in w.workers && !w.workers[k].Holds() && w'.locks == w.locks
    requires k in w'.workers && w'.workers == w.workers[k := w'.workers[k]]
    ensures LocksOk(w')
  {}

  lemma SkipStepKeeps(w: World, k: nat)
    requires Inv(w) && k in w.workers && w.workers[k].FSkipped?
    ensures HostOf(w, k) && Inv(Step(w, k)) && Grows(w, Step(w, k))
  {
    hide Inv, Grows, Carries;
    HostIn(w, k);
    var p := w.workers[k];
    if p.id in w.files[p.sv].marks && w.files[p.sv].marks[p.id].version >= p.row.version {
      CarriesSame(w, Step(w, k), p.id, p.row, p.gen);
      BecomesKeeps(w, k, FAcking(p.sv, p.id, p.row, p.gen));
    } else {
      DropKeeps(w, k);
    }
  }

  lemma StepKeeps(w: World, k: nat)
    requires Inv(w) && k in w.workers
    ensures HostOf(w, k) && Inv(Step(w, k)) && Grows(w, Step(w, k))
  {
    hide Inv, Grows, Step;
    HostIn(w, k);
    match w.workers[k]
    case MStart(_, _, _) => ReadStepKeeps(w, k);
    case FStart(_, _) => ReadStepKeeps(w, k);
    case MRead(_, _, _, _, _) => TodoStepKeeps(w, k);
    case MTodo(_, _, _, _, _) => TodoStepKeeps(w, k);
    case MReady(_, _, _, _, _) => LockStepKeeps(w, k);
    case MLocked(_, _, _, _, _, _, _, _) => WriteStepKeeps(w, k);
    case MWrote(_, _, _, _) => UnlockStepKeeps(w, k);
    case MAcking(_, _, _, _) => AckStepKeeps(w, k);
    case FRead(_, _, _, _) => FtsStepKeeps(w, k);
    case FSkipped(_, _, _, _) => SkipStepKeeps(w, k);
    case FAcking(_, _, _, _) => AckStepKeeps(w, k);
  }

  lemma SpawnKeeps(w: World, k: nat, p: Worker)
    requires Inv(w) && k !in w.workers && p.sv in w.servers && (p.MStart? || p.FStart?)
    ensures Inv(Becomes(w, k, p)) && Grows(w, Becomes(w, k, p))
  {
    hide Inv, Grows;
    BecomesKeeps(w, k, p);
  }

  /** Every event of every interleaving keeps the invariant and takes nothing back. */
  lemma EventKeeps(w: World, e: Event, w': World)
    requires Inv(w) && Takes(w, e, w')
    ensures Inv(w') && Grows(w, w')
  {
    hide Inv, Grows, Step, Commit, Valid, Honest, ResetAcks;
    match e
    case Write(db) => WriteKeeps(w, db);
    case Forget(ids, c) => ForgetKeeps(w, ids, c);
    case NewGeneration(name, dim, fp) => MetaKeeps(w, Bump(w.db.meta, name, dim, fp));
    case ClaimModel(name, dim, fp) => MetaKeeps(w, Claim(w.db.meta, name, dim, fp));
    case Join(sv, server) => JoinKeeps(w, sv, server);
    case Restart(sv, server) => RestartKeeps(w, sv, server);
    case Spawn(k, p) => SpawnKeeps(w, k, p);
    case Stop(k) => DropKeeps(w, k);
    case Advance(k) => StepKeeps(w, k);
  }
}
