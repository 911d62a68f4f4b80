/** What every run of the index protocol guarantees: acknowledgements are sound, stale writes never
    win, deleted records never come back, every vector belongs to its row, and a consumer with
    nothing pending holds exactly the live canonical records. */
module IndexGuarantees {
  import opened Wrappers
  import opened MemoryStore
  import opened StoreInvariants
  import opened IndexProtocol
  import Fts = MemoryFts

  /** `ws[i]` takes event `es[i]` to `ws[i + 1]`, from an initial world. */
  ghost predicate Run(ws: seq<World>, es: seq<Event>) {
    && |ws| == |es| + 1 && Initial(ws[0])
    && forall i | 0 <= i < |es| :: Takes(ws[i], es[i], ws[i + 1])
  }

  lemma InitialInv(w: World)
    requires Initial(w)
    ensures Inv(w)
  {
    hide Valid, Honest;
  }

  lemma {:induction false} RunInv(ws: seq<World>, es: seq<Event>, i: nat)
    requires Run(ws, es) && i < |ws|
    ensures Inv(ws[i])
  {
    hide Inv, Initial, Takes;
    if i == 0 {
      InitialInv(ws[0]);
    } else {
      RunInv(ws, es, i - 1);
      EventKeeps(ws[i - 1], es[i - 1], ws[i]);
    }
  }

  // ---- Transactions are writes of the protocol --------------------------------------------

  lemma AddIsWrite(w: World, rec: NewMemory, now: Time, newId: MemoryId)
    requires Inv(w) && newId !in w.db.memories && rec.contentHash == Sha256(rec.text)
    ensures var db := AddTx(w.db, rec, now, newId).0; Takes(w, Write(db), w.(db := db))
  {
    hide Valid, Honest, Commit, AddTx, ModelsOk, SeenOk, LocksOk, AcksOwned, AllMilvus, AllFiles,
      AllWorkers, AddHolds;
    AddKeeps(w.db, rec, now, newId);
  }

  lemma UpdateIsWrite(w: World, id: MemoryId, ch: Changes, p: Option<string>, now: Time)
    requires Inv(w) && HonestChanges(ch)
    ensures var db := UpdateTx(w.db, id, ch, p, now).0; Takes(w, Write(db), w.(db := db))
  {
    hide Valid, Honest, Commit, UpdateTx, ModelsOk, SeenOk, LocksOk, AcksOwned, AllMilvus,
      AllFiles, AllWorkers, Fits, SameContent;
    UpdateKeeps(w.db, id, ch, p, now);
  }

  lemma DeleteIsWrite(w: World, id: MemoryId, p: Option<string>, now: Time)
    requires Inv(w)
    ensures var db := DeleteTx(w.db, id, p, now).0; Takes(w, Write(db), w.(db := db))
  {
    hide Valid, Honest, Commit, DeleteTx, ModelsOk, SeenOk, LocksOk, AcksOwned, AllMilvus,
      AllFiles, AllWorkers;
    DeleteKeeps(w.db, id, p, now);
  }

  // ---- Acknowledgements -------------------------------------------------------------------

  /** An acknowledgement of `(v, g)` means the consumer has taken at least `(v, g)` and never more
      than the canonical row: Milvus through the stamp it last took, a host's file through its
      watermark. */
  lemma AckSound(ws: seq<World>, es: seq<Event>, i: nat, c: Consumer, id: MemoryId)
    requires Run(ws, es) && i < |ws| && (c, id) in ws[i].db.acks
    ensures var w := ws[i]; var a := AckStamp(w.db.acks[(c, id)]);
            && id in w.db.memories && Leq(a, StampOf(w.db, id))
            && match c
               case Milvus =>
                 && id in w.applied && Leq(a, w.applied[id]) && Leq(w.applied[id], StampOf(w.db, id))
                 && (id, w.applied[id].version) in w.db.log && Reflects(w, id, w.applied[id])
               case Fts(sv) =>
                 sv in w.files && id in w.files[sv].marks &&
                 var v := w.files[sv].marks[id].version;
                 && a.version <= v <= w.db.memories[id].version && (id, v) in w.db.log
                 && Fts.HoldsRow(w.files[sv], id, w.db.log[(id, v)])
  {
    RunInv(ws, es, i);
    AckSoundIn(ws[i], c, id);
  }

  lemma AckSoundIn(w: World, c: Consumer, id: MemoryId)
    requires Inv(w) && (c, id) in w.db.acks
    ensures var a := AckStamp(w.db.acks[(c, id)]);
            && Known(w, id, a)
            && match c
               case Milvus =>
                 && id in w.applied && Leq(a, w.applied[id]) && Known(w, id, w.applied[id])
                 && Reflects(w, id, w.applied[id])
               case Fts(sv) =>
                 sv in w.files && id in w.files[sv].marks &&
                 var v := w.files[sv].marks[id].version;
                 && a.version <= v <= w.db.memories[id].version && (id, v) in w.db.log
                 && Fts.HoldsRow(w.files[sv], id, w.db.log[(id, v)])
  {
    hide Valid, Honest, ModelsOk, SeenOk, LocksOk, AllWorkers;
    match c
    case Milvus => assert MilvusOk(w, id);
    case Fts(sv) => assert FileOk(w, sv, id);
  }

  /** On stamps read of one record, the row order of the SQL guards is the product order, so
      `ack`, `is_acked` and `pending` agree about what is behind. */
  lemma GuardsAgree(w: World, id: MemoryId, s: Stamp, t: Stamp)
    requires Inv(w) && (id, s) in w.seen && (id, t) in w.seen
    ensures Leq(s, t) || Leq(t, s)
    ensures PairLess(s.version, s.generation, t.version, t.generation) <==> Leq(s, t) && s != t
    ensures !PairLess(s.version, s.generation, t.version, t.generation) <==> Leq(t, s)
  {
    hide Valid, Honest, ModelsOk, LocksOk, AcksOwned, AllMilvus, AllFiles, AllWorkers;
    assert (id, s).0 == (id, t).0;
  }

  /** A late acknowledgement of `row`, to Milvus or to a host's file, never lowers a stored one, and
      leaves the record pending exactly when it was and what it names is not current. */
  lemma LateAck(w: World, k: nat)
    requires Inv(w) && k in w.workers && (w.workers[k].MAcking? || w.workers[k].FAcking?)
    ensures HostOf(w, k) && Step(w, k).db == AcksNow(w, w.workers[k])
    ensures Later(w.db, AcksNow(w, w.workers[k]), ConsumerOf(w.workers[k]), w.workers[k].id,
                  Stamp(w.workers[k].row.version, w.workers[k].gen))
  {
    hide Inv, Step, WorkerOk, Fts.HoldsRow, Reflects;
    HostIn(w, k);
    AckStepIs(w, k);
    var p, c := w.workers[k], ConsumerOf(w.workers[k]);
    CarriedKnown(w, k);
    if (c, p.id) in w.db.acks {
      AckSoundIn(w, c, p.id);
      GuardsAgree(w, p.id, AckStamp(w.db.acks[(c, p.id)]), Stamp(p.row.version, p.gen));
    }
  }

  lemma AckStepIs(w: World, k: nat)
    requires HostOf(w, k) && (w.workers[k].MAcking? || w.workers[k].FAcking?)
    ensures Step(w, k).db == AcksNow(w, w.workers[k])
  {
    hide AckTx;
  }

  lemma CarriedKnown(w: World, k: nat)
    requires k in w.workers && WorkerOk(w, k) && w.workers[k].HasRow()
    ensures Known(w, w.workers[k].id, Stamp(w.workers[k].row.version, w.workers[k].gen))
  {}

  function ConsumerOf(p: Worker): Consumer
    requires p.MAcking? || p.FAcking?
  {
    if p.MAcking? then Milvus else Consumer.Fts(p.sv)
  }

  function AcksNow(w: World, p: Worker): Db
    requires p.MAcking? || p.FAcking?
  {
    AckTx(w.db, ConsumerOf(p), p.id, Ack(p.row.version, p.gen, p.row.Deleted())).0
  }

  /** The consumer has an acknowledgement of `id`, no lower than before; the record is pending exactly
      when it was and `s` is not current for that consumer: its version, and for Milvus its generation. */
  ghost predicate Later(db: Db, db': Db, c: Consumer, id: MemoryId, s: Stamp) {
    && id in db.memories && db'.memories == db.memories && (c, id) in db'.acks
    && ((c, id) in db.acks ==> Leq(AckStamp(db.acks[(c, id)]), AckStamp(db'.acks[(c, id)])))
    && (IsPending(db', c, id) <==>
          IsPending(db, c, id)
          && (s.version != db.memories[id].version || (c.Milvus? && s.generation != db.meta.generation)))
  }

  // ---- A consumer with nothing pending ----------------------------------------------------

  /** The live canonical records as Milvus should hold them. */
  ghost predicate MilvusMatches(w: World) {
    && (forall id :: id in w.milvus <==> id in w.db.memories && !w.db.memories[id].Deleted())
    && (forall id | id in w.milvus ::
          w.db.meta.generation in w.models
          && w.milvus[id] == MilvusRowOf(w.db.memories[id], w.db.meta.generation,
               Embedding(w.models[w.db.meta.generation], w.db.memories[id].text)))
  }

  ghost predicate FileMatches(db: Db, f: Fts.File) {
    && (forall id :: id in f.rows <==> id in db.memories && !db.memories[id].Deleted())
    && (forall id | id in f.rows :: f.rows[id] == Fts.RowOf(db.memories[id]))
  }

  lemma NothingPendingMilvus(ws: seq<World>, es: seq<Event>, i: nat)
    requires Run(ws, es) && i < |ws| && PendingIds(ws[i].db, Milvus) == {}
    ensures MilvusMatches(ws[i])
  {
    RunInv(ws, es, i);
    NothingPendingIn(ws[i]);
  }

  lemma NothingPendingIn(w: World)
    requires Inv(w) && PendingIds(w.db, Milvus) == {}
    ensures MilvusMatches(w)
  {
    hide Inv, IsPending;
    forall id | id in w.db.memories || id in w.milvus
      ensures id in w.db.memories && StampTaken(w, id)
    {
      OwnedByRecord(w, id);
      assert id !in PendingIds(w.db, Milvus);
      TakenWhenNotPending(w, id);
    }
  }

  lemma OwnedByRecord(w: World, id: MemoryId)
    requires Inv(w) && (id in w.db.memories || id in w.milvus)
    ensures id in w.db.memories
  {
    assert MilvusOk(w, id);
  }

  /** Milvus says of `id` exactly what the current row and generation say. */
  ghost predicate StampTaken(w: World, id: MemoryId)
    requires id in w.db.memories
  {
    var m := w.db.memories[id];
    if m.Deleted() then id !in w.milvus
    else
      && id in w.milvus && w.db.meta.generation in w.models
      && w.milvus[id] == MilvusRowOf(m, w.db.meta.generation,
                                     Embedding(w.models[w.db.meta.generation], m.text))
  }

  lemma TakenWhenNotPending(w: World, id: MemoryId)
    requires Inv(w) && id in w.db.memories && !IsPending(w.db, Milvus, id)
    ensures StampTaken(w, id)
  {
    hide Honest, Valid, Inv;
    AckSoundIn(w, Milvus, id);
    InvValid(w);
    CurrentLogged(w.db, id);
  }

  lemma InvValid(w: World)
    requires Inv(w)
    ensures Valid(w.db)
  {}

  lemma NothingPendingFts(ws: seq<World>, es: seq<Event>, i: nat, sv: string)
    requires Run(ws, es) && i < |ws| && sv in ws[i].files
    requires PendingIds(ws[i].db, Consumer.Fts(sv)) == {}
    ensures FileMatches(ws[i].db, ws[i].files[sv])
  {
    hide Run, Inv, IsPending;
    var w := ws[i];
    RunInv(ws, es, i);
    var f := w.files[sv];
    forall id | id in w.db.memories || id in f.rows
      ensures id in w.db.memories && HeldNow(w.db, f, id)
    {
      FileOwned(w, sv, id);
      assert id !in PendingIds(w.db, Consumer.Fts(sv));
      HeldWhenNotPending(w, sv, id);
    }
  }

  ghost predicate HeldNow(db: Db, f: Fts.File, id: MemoryId)
    requires id in db.memories
  {
    if db.memories[id].Deleted() then id !in f.rows
    else id in f.rows && f.rows[id] == Fts.RowOf(db.memories[id])
  }

  lemma FileOwned(w: World, sv: string, id: MemoryId)
    requires Inv(w) && sv in w.files && (id in w.db.memories || id in w.files[sv].rows)
    ensures id in w.db.memories
  {
    assert FileOk(w, sv, id);
  }

  lemma HeldWhenNotPending(w: World, sv: string, id: MemoryId)
    requires Inv(w) && sv in w.files && id in w.db.memories
    requires !IsPending(w.db, Consumer.Fts(sv), id)
    ensures HeldNow(w.db, w.files[sv], id)
  {
    hide Honest, Valid, Inv, Known;
    AckSoundIn(w, Consumer.Fts(sv), id);
    InvValid(w);
    CurrentLogged(w.db, id);
  }

  // ---- Nothing moves back -----------------------------------------------------------------

  /** No index copy of any record goes to an older version or generation. */
  ghost predicate Ratchets(w: World, w': World) {
    && (forall id | id in w.applied :: id in w'.applied && Leq(w.applied[id], w'.applied[id]))
    && (forall sv, id | sv in w.files && id in w.files[sv].marks ::
          sv in w'.files && id in w'.files[sv].marks
          && w.files[sv].marks[id].version <= w'.files[sv].marks[id].version)
  }

  /** Only the locked Milvus call and the FTS transaction move a copy, and only upwards. */
  lemma StepRatchets(w: World, k: nat)
    requires Inv(w) && k in w.workers
    ensures HostOf(w, k) && Ratchets(w, Step(w, k))
  {
    hide Inv, Ratchets, Step, WorkerOk;
    HostIn(w, k);
    if w.workers[k].MLocked? {
      LockedRatchets(w, k);
    } else if w.workers[k].FRead? {
      FtsRatchets(w, k);
    } else {
      OthersWriteNoCopy(w, k);
      SameRatchets(w, Step(w, k));
    }
  }

  lemma OthersWriteNoCopy(w: World, k: nat)
    requires HostOf(w, k) && !w.workers[k].MLocked? && !w.workers[k].FRead?
    ensures SameCopies(w, Step(w, k))
  {
    hide AckTx, IsAcked, Refused, Drop, Becomes;
    forall v: World, j: nat ensures SameCopies(v, Drop(v, j)) { DropCopies(v, j); }
    forall v: World, j: nat, p ensures SameCopies(v, Becomes(v, j, p)) { BecomesCopies(v, j, p); }
  }

  /** The stamps Milvus took and the files are untouched. */
  predicate SameCopies(w: World, w': World) { w'.applied == w.applied && w'.files == w.files }

  lemma DropCopies(w: World, k: nat)
    ensures SameCopies(w, Drop(w, k))
  {}

  lemma BecomesCopies(w: World, k: nat, p: Worker)
    ensures SameCopies(w, Becomes(w, k, p))
  {}

  lemma SameRatchets(w: World, w': World)
    requires w'.applied == w.applied
    requires forall sv | sv in w.files :: sv in w'.files && w'.files[sv] == w.files[sv]
    ensures Ratchets(w, w')
  {}

  lemma LockedRatchets(w: World, k: nat)
    requires k in w.workers && w.workers[k].MLocked? && HostOf(w, k) && WorkerOk(w, k)
    ensures Ratchets(w, Step(w, k))
  {
    hide Refused, Known;
  }

  lemma FtsRatchets(w: World, k: nat)
    requires k in w.workers && w.workers[k].FRead? && HostOf(w, k)
    ensures Ratchets(w, Step(w, k))
  {}

  lemma EventRatchets(w: World, e: Event, w': World)
    requires Inv(w) && Takes(w, e, w')
    ensures Ratchets(w, w')
  {
    hide Inv, Ratchets, Takes;
    if e.Advance? {
      var k := AdvancesOf(w, e, w');
      StepRatchets(w, k);
    } else {
      CopiesKept(w, e, w');
      SameRatchets(w, w');
    }
  }

  lemma AdvancesOf(w: World, e: Event, w': World) returns (k: nat)
    requires Takes(w, e, w') && e.Advance?
    ensures k == e.k && HostOf(w, k) && w' == Step(w, k)
  {
    hide Step;
    k := e.k;
  }

  lemma CopiesKept(w: World, e: Event, w': World)
    requires Takes(w, e, w') && !e.Advance?
    ensures w'.applied == w.applied
    ensures forall sv | sv in w.files :: sv in w'.files && w'.files[sv] == w.files[sv]
  {
    hide Takes;
    match e
    case Join(sv, server) => JoinCopies(w, sv, server, w');
    case Restart(sv, server) => RestartCopies(w, sv, server, w');
    case Write(db) => WriteCopies(w, db, w');
    case Forget(ids, c) => ForgetCopies(w, ids, c, w');
    case NewGeneration(name, dim, fp) => GenerationCopies(w, name, dim, fp, w');
    case ClaimModel(name, dim, fp) => ClaimCopies(w, name, dim, fp, w');
    case Spawn(k, p) => SpawnCopies(w, k, p, w');
    case Stop(k) => StopCopies(w, k, w');
  }

  lemma JoinCopies(w: World, sv: string, server: Server, w': World)
    requires Takes(w, Join(sv, server), w')
    ensures w'.applied == w.applied
    ensures forall h | h in w.files :: h in w'.files && w'.files[h] == w.files[h]
  {}

  lemma RestartCopies(w: World, sv: string, server: Server, w': World)
    requires Takes(w, Restart(sv, server), w')
    ensures SameCopies(w, w')
  {}

  lemma WriteCopies(w: World, db: Db, w': World)
    requires Takes(w, Write(db), w')
    ensures SameCopies(w, w')
  {
    hide Commit, Valid, Honest;
  }

  lemma ForgetCopies(w: World, ids: Option<set<MemoryId>>, c: Option<Consumer>, w': World)
    requires Takes(w, Forget(ids, c), w')
    ensures SameCopies(w, w')
  {
    hide ResetAcks;
  }

  lemma GenerationCopies(w: World, name: Option<string>, dim: Option<nat>, fp: Option<Fingerprint>, w': World)
    requires Takes(w, NewGeneration(name, dim, fp), w')
    ensures SameCopies(w, w')
  {
    hide Bump;
    MetaCopies(w, Bump(w.db.meta, name, dim, fp));
  }

  lemma ClaimCopies(w: World, name: string, dim: nat, fp: Option<Fingerprint>, w': World)
    requires Takes(w, ClaimModel(name, dim, fp), w')
    ensures SameCopies(w, w')
  {
    hide Claim;
    MetaCopies(w, Claim(w.db.meta, name, dim, fp));
  }

  lemma SpawnCopies(w: World, k: nat, p: Worker, w': World)
    requires Takes(w, Spawn(k, p), w')
    ensures SameCopies(w, w')
  {
    BecomesCopies(w, k, p);
  }

  lemma StopCopies(w: World, k: nat, w': World)
    requires Takes(w, Stop(k), w')
    ensures SameCopies(w, w')
  {
    DropCopies(w, k);
  }

  lemma MetaCopies(w: World, meta: Meta)
    ensures SameCopies(w, WithMeta(w, meta))
  {}

  lemma {:induction false} RunRatchets(ws: seq<World>, es: seq<Event>, i: nat, j: nat)
    requires Run(ws, es) && i <= j < |ws|
    ensures Ratchets(ws[i], ws[j]) && Grows(ws[i], ws[j])
  {
    hide Inv, Takes, Initial, Grows;
    if i == j {
      SelfGrows(ws[i], ws[j]);
    } else {
      RunRatchets(ws, es, i, j - 1);
      RunInv(ws, es, j - 1);
      EventRatchets(ws[j - 1], es[j - 1], ws[j]);
      EventKeeps(ws[j - 1], es[j - 1], ws[j]);
      GrowsTransitive(ws[i], ws[j - 1], ws[j]);
    }
  }

  /** Once Milvus has taken a record's tombstone, no delayed worker ever brings it back; once a
      host's watermark is at the tombstone, its file never holds the record again. */
  lemma DeletedStaysDeleted(ws: seq<World>, es: seq<Event>, i: nat, j: nat, id: MemoryId)
    requires Run(ws, es) && i <= j < |ws| && id in ws[i].db.memories
    requires ws[i].db.memories[id].Deleted()
    ensures id in ws[i].applied && ws[i].applied[id].version == ws[i].db.memories[id].version ==>
              id !in ws[j].milvus
    ensures forall sv | sv in ws[i].files && id in ws[i].files[sv].marks
                        && ws[i].files[sv].marks[id].version == ws[i].db.memories[id].version ::
              sv in ws[j].files && id !in ws[j].files[sv].rows
  {
    hide Run, Inv, Grows, Valid;
    RunRatchets(ws, es, i, j);
    RunInv(ws, es, i);
    RunInv(ws, es, j);
    InvValid(ws[i]);
    InvValid(ws[j]);
    TombstoneIsLast(ws[i], ws[j], id);
    TombstoneHeld(ws[j], id);
  }

  /** A tombstone is the last version its record ever has. */
  lemma TombstoneIsLast(w: World, w': World, id: MemoryId)
    requires Valid(w.db) && Valid(w'.db) && Grows(w, w')
    requires id in w.db.memories && w.db.memories[id].Deleted()
    ensures id in w'.db.memories && w'.db.memories[id] == w.db.memories[id]
  {
    hide Unique, SequencesUnique;
    var v := w.db.memories[id].version;
    assert LogOf(w.db, id) && LogOf(w'.db, id);
    assert Leq(StampOf(w.db, id), StampOf(w'.db, id));
    assert Entry(w'.db.log[(id, v)], w'.db.memories[id], v);
  }

  lemma TombstoneHeld(w: World, id: MemoryId)
    requires Inv(w) && id in w.db.memories && w.db.memories[id].Deleted()
    ensures id in w.applied && w.applied[id].version >= w.db.memories[id].version ==> id !in w.milvus
    ensures forall sv | sv in w.files && id in w.files[sv].marks
                        && w.files[sv].marks[id].version >= w.db.memories[id].version ::
              id !in w.files[sv].rows
  {
    hide Valid, Honest, ModelsOk, SeenOk, LocksOk, AllWorkers, AcksOwned;
    CurrentLogged(w.db, id);
    assert MilvusOk(w, id);
    forall sv | sv in w.files && id in w.files[sv].marks
                && w.files[sv].marks[id].version >= w.db.memories[id].version
      ensures id !in w.files[sv].rows
    {
      assert FileOk(w, sv, id);
    }
  }

  // ---- Vectors ----------------------------------------------------------------------------

  /** Whatever text edits, metadata edits and model changes fell between an embedding and its
      locked write, a Milvus row stamped `(v, g)` carries version `v`'s columns and the embedding
      of exactly version `v`'s text by the model recorded for generation `g`. */
  lemma RowsStamped(ws: seq<World>, es: seq<Event>, i: nat, id: MemoryId)
    requires Run(ws, es) && i < |ws| && id in ws[i].milvus
    ensures var w, r := ws[i], ws[i].milvus[id];
            && (id, r.version) in w.db.log && r.generation in w.models
            && r == MilvusRowOf(w.db.log[(id, r.version)], r.generation,
                      Embedding(w.models[r.generation], w.db.log[(id, r.version)].text))
  {
    RunInv(ws, es, i);
    StampedIn(ws[i], id);
  }

  lemma StampedIn(w: World, id: MemoryId)
    requires Inv(w) && id in w.milvus
    ensures var r := w.milvus[id];
            && (id, r.version) in w.db.log && r.generation in w.models
            && r == MilvusRowOf(w.db.log[(id, r.version)], r.generation,
                      Embedding(w.models[r.generation], w.db.log[(id, r.version)].text))
  {
    assert MilvusOk(w, id);
    InvValid(w);
    assert LogOf(w.db, id);
    assert Entry(w.db.log[(id, w.applied[id].version)], w.db.memories[id], w.applied[id].version);
  }

  /** The model recorded for a generation never changes, so the row above stays comparable. */
  lemma ModelsFixed(ws: seq<World>, es: seq<Event>, i: nat, j: nat, g: nat)
    requires Run(ws, es) && i <= j < |ws| && g in ws[i].models
    ensures g in ws[j].models && ws[j].models[g] == ws[i].models[g]
  {
    RunRatchets(ws, es, i, j);
  }
}
