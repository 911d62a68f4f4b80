/** What a reconcile does to a run it meets: it takes for strays the rows of records created after it read
    the record list. Removing such a row loses the record exactly when its acknowledgement is current, or
    a worker that has written it is about to make it so. */
module IndexStrays {
  import opened Wrappers
  import opened MemoryStore
  import opened StoreInvariants
  import opened IndexProtocol
  import opened IndexGuarantees
  import opened MemoryIndex
  import opened IndexConvergence
  import opened IndexRefinement
  import MemoryImport
  import Fts = MemoryFts

  /** The row of `id` taken out of Milvus. */
  function Swept(w: World, id: MemoryId): World { w.(milvus := Without(w.milvus, id)) }

  predicate Live(db: Db, id: MemoryId) { id in db.memories && !db.memories[id].Deleted() }

  /** A worker has written the current version at the current generation and has yet to acknowledge it. */
  predicate PastWrite(w: World, id: MemoryId)
    requires id in w.db.memories
  {
    exists k | k in w.workers :: Owes(w, k, id)
  }

  predicate Owes(w: World, k: nat, id: MemoryId)
    requires id in w.db.memories && k in w.workers
  {
    var p := w.workers[k];
    (p.MWrote? || p.MAcking?) && p.id == id && Stamp(p.row.version, p.gen) == StampOf(w.db, id)
  }

  /** The row is vouched for: acknowledged as it now is, or about to be. */
  predicate Vouched(w: World, id: MemoryId) {
    Live(w.db, id) && (!IsPending(w.db, Milvus, id) || PastWrite(w, id))
  }

  /** A live record that nothing will index: not pending, and not in Milvus. */
  predicate Lost(w: World, id: MemoryId) {
    Live(w.db, id) && !IsPending(w.db, Milvus, id) && id !in w.milvus
  }

  // ---- Nothing the protocol does depends on what Milvus holds ------------------------------

  /** The same but for Milvus. */
  predicate Alike(a: World, b: World) {
    && b.db == a.db && b.files == a.files && b.servers == a.servers && b.workers == a.workers
    && b.locks == a.locks && b.applied == a.applied && b.models == a.models && b.seen == a.seen
  }

  lemma AlikeStart(a: World, b: World, k: nat)
    requires Alike(a, b) && HostOf(a, k) && (a.workers[k].MStart? || a.workers[k].MRead?)
    ensures HostOf(b, k) && Alike(Step(a, k), Step(b, k)) && Step(b, k).milvus == b.milvus
  {
    hide IsAcked, StampOf;
  }

  lemma AlikeReady(a: World, b: World, k: nat)
    requires Alike(a, b) && HostOf(a, k) && (a.workers[k].MTodo? || a.workers[k].MReady?)
    ensures HostOf(b, k) && Alike(Step(a, k), Step(b, k)) && Step(b, k).milvus == b.milvus
  {
    hide IsAcked, StampOf;
  }

  /** The statement in the lock: what it writes, or what it does when it writes nothing. */
  function LockedWrites(w: World, k: nat, p: Worker): World
    requires p.MLocked? && (p.row.Deleted() || p.vector.Some?)
  {
    Becomes(MilvusTakes(w, p.id, Stamp(p.row.version, p.gen), IndexProtocol.Written(p)), k, MWrote(p.sv, p.id, p.row, p.gen))
  }

  function LockedGivesUp(w: World, k: nat, p: Worker): World
    requires p.MLocked?
  {
    if (p.vector.None? || p.row.contentHash != p.hash) && p.tries + 1 < MAX_EMBED_RACES
    then Becomes(Drop(w, k), k, MStart(p.sv, p.id, p.tries + 1)) else Drop(w, k)
  }

  lemma LockedStepIs(w: World, k: nat)
    requires HostOf(w, k) && w.workers[k].MLocked?
    ensures var p := w.workers[k];
            Step(w, k) == if Writes(w, k) then LockedWrites(w, k, p) else LockedGivesUp(w, k, p)
  {
    hide Refused, MilvusRowOf, Without, Drop;
  }

  lemma DropAlike(a: World, b: World, k: nat)
    requires Alike(a, b)
    ensures Alike(Drop(a, k), Drop(b, k))
  {}

  lemma DropIs(w: World, k: nat)
    ensures var w' := Drop(w, k); w'.db == w.db && w'.milvus == w.milvus && w'.workers == Without(w.workers, k)
  {}

  lemma GivesUpAlike(a: World, b: World, k: nat, p: Worker)
    requires Alike(a, b) && p.MLocked?
    ensures Alike(LockedGivesUp(a, k, p), LockedGivesUp(b, k, p))
  {
    hide Drop;
    DropAlike(a, b, k);
  }

  lemma WritesAlike(a: World, b: World, k: nat, p: Worker)
    requires Alike(a, b) && p.MLocked? && (p.row.Deleted() || p.vector.Some?)
    ensures Alike(LockedWrites(a, k, p), LockedWrites(b, k, p))
  {
    hide MilvusRowOf, IndexProtocol.Written, Without;
  }

  lemma AlikeLocked(a: World, b: World, k: nat)
    requires Alike(a, b) && HostOf(a, k) && a.workers[k].MLocked?
    ensures HostOf(b, k) && Alike(Step(a, k), Step(b, k))
  {
    hide Step, LockedWrites, LockedGivesUp, Refused;
    LockedStepIs(a, k);
    LockedStepIs(b, k);
    if Writes(a, k) { WritesAlike(a, b, k, a.workers[k]); } else { GivesUpAlike(a, b, k, a.workers[k]); }
  }

  lemma AlikeAcking(a: World, b: World, k: nat)
    requires Alike(a, b) && HostOf(a, k)
    requires a.workers[k].MWrote? || a.workers[k].MAcking? || a.workers[k].FAcking?
    ensures HostOf(b, k) && Alike(Step(a, k), Step(b, k)) && Step(b, k).milvus == b.milvus
  {
    hide AckTx;
  }

  lemma AlikeFtsStart(a: World, b: World, k: nat)
    requires Alike(a, b) && HostOf(a, k) && a.workers[k].FStart?
    ensures HostOf(b, k) && Alike(Step(a, k), Step(b, k)) && Step(b, k).milvus == b.milvus
  {
    hide StampOf;
  }

  lemma AlikeFts(a: World, b: World, k: nat)
    requires Alike(a, b) && HostOf(a, k) && (a.workers[k].FRead? || a.workers[k].FSkipped?)
    ensures HostOf(b, k) && Alike(Step(a, k), Step(b, k)) && Step(b, k).milvus == b.milvus
  {
    hide Fts.Apply, StampOf, ReadCanonical;
  }

  lemma AlikeStep(a: World, b: World, k: nat)
    requires Alike(a, b) && HostOf(a, k)
    ensures HostOf(b, k) && Alike(Step(a, k), Step(b, k))
    ensures !a.workers[k].MLocked? ==> Step(b, k).milvus == b.milvus
  {
    hide Step, Alike;
    assert a.workers == b.workers by { HostAlike(a, b); }
    match a.workers[k]
    case MStart(_, _, _) => AlikeStart(a, b, k);
    case MRead(_, _, _, _, _) => AlikeStart(a, b, k);
    case MTodo(_, _, _, _, _) => AlikeReady(a, b, k);
    case MReady(_, _, _, _, _) => AlikeReady(a, b, k);
    case MLocked(_, _, _, _, _, _, _, _) => AlikeLocked(a, b, k);
    case MWrote(_, _, _, _) => AlikeAcking(a, b, k);
    case MAcking(_, _, _, _) => AlikeAcking(a, b, k);
    case FStart(_, _) => AlikeFtsStart(a, b, k);
    case FRead(_, _, _, _) => AlikeFts(a, b, k);
    case FSkipped(_, _, _, _) => AlikeFts(a, b, k);
    case FAcking(_, _, _, _) => AlikeAcking(a, b, k);
  }

  lemma HostAlike(a: World, b: World)
    requires Alike(a, b)
    ensures a.workers == b.workers
  {}

  lemma AlikeTakes(a: World, b: World, e: Event, b': World) returns (a': World)
    requires Alike(a, b) && Takes(b, e, b')
    ensures Takes(a, e, a') && Alike(a', b')
    ensures if e.Advance? then HostOf(a, e.k) && HostOf(b, e.k) && a' == Step(a, e.k) && b' == Step(b, e.k)
            else b'.milvus == b.milvus
  {
    hide Step, Commit, Valid, Honest, ResetAcks, Bump, Claim;
    if e.Advance? {
      AlikeStep(a, b, e.k);
      a' := Step(a, e.k);
    } else {
      a' := b'.(milvus := a.milvus);
    }
  }

  // ---- A row that is not vouched for --------------------------------------------------------

  /** `v` satisfies the invariant, `u` is `v` but for Milvus, and holds the row if it is vouched for. */
  ghost predicate Guarded(v: World, u: World, id: MemoryId) {
    Inv(v) && Alike(v, u) && (Vouched(u, id) ==> id in u.milvus)
  }

  /** What a worker carries or an acknowledgement names is no later than the record. */
  lemma WorkerBehind(w: World, k: nat)
    requires Inv(w) && k in w.workers && w.workers[k].HasRow()
    ensures var p := w.workers[k];
            Known(w, p.id, Stamp(p.row.version, p.gen)) && w.db.log[(p.id, p.row.version)] == p.row
  {
    hide Valid, Honest, ModelsOk, SeenOk, LocksOk, AcksOwned, AllMilvus, AllFiles;
    assert WorkerOk(w, k);
  }

  lemma AckBehind(w: World, id: MemoryId)
    requires Inv(w) && (Milvus, id) in w.db.acks
    ensures Known(w, id, AckStamp(w.db.acks[(Milvus, id)]))
  {
    hide Inv, Reflects, Fts.HoldsRow;
    AckSoundIn(w, Milvus, id);
  }

  /** A commit vouches for nothing new. */
  lemma WriteVouches(w: World, db: Db, id: MemoryId)
    requires Inv(w) && Commit(w.db, db) && Vouched(w.(db := db), id)
    ensures Vouched(w, id)
  {
    hide Inv, AddTx;
    var w' := w.(db := db);
    if id !in w.db.memories || !Kept(w.db, db, id) {
      assert NoAcks(db, id);
      var k :| k in w'.workers && Owes(w', k, id);
      WorkerBehind(w, k);
    } else if PastWrite(w', id) {
      var k :| k in w'.workers && Owes(w', k, id);
      assert Owes(w, k, id);
    }
  }

  lemma ForgetVouches(w: World, ids: Option<set<MemoryId>>, c: Option<Consumer>, id: MemoryId)
    requires Vouched(w.(db := ResetAcks(w.db, ids, c)), id)
    ensures Vouched(w, id)
  {
    var w' := w.(db := ResetAcks(w.db, ids, c));
    if PastWrite(w', id) {
      var k :| k in w'.workers && Owes(w', k, id);
      assert Owes(w, k, id);
    }
  }

  lemma MetaVouches(w: World, meta: Meta, id: MemoryId)
    requires Inv(w) && NextMeta(w.db.meta, meta) && Vouched(WithMeta(w, meta), id)
    ensures Vouched(w, id)
  {
    hide Inv;
    var w' := WithMeta(w, meta);
    if (Milvus, id) in w.db.acks { AckBehind(w, id); }
    if PastWrite(w', id) {
      var k :| k in w'.workers && Owes(w', k, id);
      WorkerBehind(w, k);
      assert Owes(w, k, id);
    }
  }

  /** Fewer workers that owe, the tables as they were. */
  lemma WorkersVouch(w: World, w': World, id: MemoryId)
    requires w'.db == w.db && Vouched(w', id)
    requires forall k | k in w'.workers && (w'.workers[k].MWrote? || w'.workers[k].MAcking?) ::
               k in w.workers && w.workers[k] == w'.workers[k]
    ensures Vouched(w, id)
  {
    if PastWrite(w', id) {
      var k :| k in w'.workers && Owes(w', k, id);
      assert Owes(w, k, id);
    }
  }

  lemma QuietVouches(w: World, e: Event, w': World, id: MemoryId)
    requires Inv(w) && Takes(w, e, w') && !e.Advance? && Vouched(w', id)
    ensures Vouched(w, id)
  {
    hide Inv, Commit, Valid, Honest, ResetAcks, Bump, Claim, Vouched, NextMeta;
    match e
    case Write(db) => WriteVouches(w, db, id);
    case Forget(ids, c) => ForgetVouches(w, ids, c, id);
    case NewGeneration(name, dim, fp) => BumpIsNext(w.db.meta, name, dim, fp); MetaVouches(w, Bump(w.db.meta, name, dim, fp), id);
    case ClaimModel(name, dim, fp) => ClaimIsNext(w, name, dim, fp); MetaVouches(w, Claim(w.db.meta, name, dim, fp), id);
    case Join(_, _) => WorkersVouch(w, w', id);
    case Restart(_, _) => WorkersVouch(w, w', id);
    case Spawn(_, _) => WorkersVouch(w, w', id);
    case Stop(_) => WorkersVouch(w, w', id);
  }

  lemma BumpIsNext(meta: Meta, name: Option<string>, dim: Option<nat>, fp: Option<Fingerprint>)
    ensures NextMeta(meta, Bump(meta, name, dim, fp))
  {}

  lemma ClaimIsNext(w: World, name: string, dim: nat, fp: Option<Fingerprint>)
    requires Inv(w)
    ensures NextMeta(w.db.meta, Claim(w.db.meta, name, dim, fp))
  {
    hide Valid, Honest, SeenOk, LocksOk, AcksOwned, AllMilvus, AllFiles, AllWorkers;
  }

  /** A worker's statement vouches for nothing new, but by writing the row. */
  lemma AckVouches(w: World, k: nat, id: MemoryId)
    requires Inv(w) && k in w.workers && (w.workers[k].MAcking? || w.workers[k].FAcking?)
    requires HostOf(w, k) && Vouched(Step(w, k), id)
    ensures Vouched(w, id)
  {
    hide Inv, AckTx, WorkerOk;
    var p, w' := w.workers[k], Step(w, k);
    LateAck(w, k);
    AckedOthers(w.db, ConsumerOf(p), p.id, Ack(p.row.version, p.gen, p.row.Deleted()), id);
    if PastWrite(w', id) {
      var j :| j in w'.workers && Owes(w', j, id);
      assert Owes(w, j, id);
    } else if p.MAcking? && p.id == id && IsPending(w.db, Milvus, id) {
      assert Owes(w, k, id);
    }
  }

  /** An acknowledgement to another consumer, or of another record, leaves this one as pending as it was. */
  lemma AckedOthers(db: Db, c: Consumer, o: MemoryId, ack: Ack, id: MemoryId)
    ensures var db' := AckTx(db, c, o, ack).0;
            && db'.memories == db.memories && db'.meta == db.meta
            && (id in db.memories && (c != Milvus || o != id) ==> IsPending(db', Milvus, id) == IsPending(db, Milvus, id))
  {}

  lemma ReadingVouches(w: World, k: nat, id: MemoryId)
    requires HostOf(w, k) && Vouched(Step(w, k), id)
    requires w.workers[k].MStart? || w.workers[k].MRead? || w.workers[k].MTodo? || w.workers[k].MReady?
    ensures Vouched(w, id)
  {
    hide IsAcked, Vouched, StampOf;
    WorkersVouch(w, Step(w, k), id);
  }

  lemma FtsVouches(w: World, k: nat, id: MemoryId)
    requires HostOf(w, k) && Vouched(Step(w, k), id)
    requires w.workers[k].FStart? || w.workers[k].FRead? || w.workers[k].FSkipped?
    ensures Vouched(w, id)
  {
    hide Fts.Apply, Vouched, StampOf;
    WorkersVouch(w, Step(w, k), id);
  }

  lemma OtherSteps(w: World, k: nat, id: MemoryId)
    requires HostOf(w, k) && Vouched(Step(w, k), id)
    requires !w.workers[k].MAcking? && !w.workers[k].FAcking? && !w.workers[k].MLocked?
    ensures Vouched(w, id)
  {
    hide Step, Vouched;
    if w.workers[k].MWrote? {
      UnlockVouches(w, k, id);
    } else if w.workers[k].FStart? || w.workers[k].FRead? || w.workers[k].FSkipped? {
      FtsVouches(w, k, id);
    } else {
      ReadingVouches(w, k, id);
    }
  }

  lemma UnlockVouches(w: World, k: nat, id: MemoryId)
    requires HostOf(w, k) && w.workers[k].MWrote? && Vouched(Step(w, k), id)
    ensures Vouched(w, id)
  {
    var w' := Step(w, k);
    if PastWrite(w', id) {
      var j :| j in w'.workers && Owes(w', j, id);
      assert Owes(w, j, id);
    }
  }

  /** A live record has no tombstone among its versions. */
  lemma LiveHasNoTombstone(db: Db, id: MemoryId, v: nat)
    requires Valid(db) && Live(db, id) && (id, v) in db.log
    ensures !db.log[(id, v)].Deleted()
  {
    hide SequencesUnique, Unique;
    assert LogOf(db, id);
  }

  /** The locked call writes the row of the record it vouches for, or vouches for nothing new. */
  lemma LockedVouches(w: World, u: World, k: nat, id: MemoryId)
    requires Inv(w) && Alike(w, u) && HostOf(w, k) && HostOf(u, k) && w.workers[k].MLocked? && Vouched(Step(u, k), id)
    ensures id in Step(u, k).milvus || (Vouched(u, id) && id !in u.milvus)
  {
    hide Inv, Refused, MilvusRowOf, WorkerOk, Vouched;
    var p, u' := w.workers[k], Step(u, k);
    WorkerBehind(w, k);
    InvValid(w);
    if p.row.Deleted() && p.id == id {
      assert Live(w.db, id) by { VouchedLive(u', id); }
      LiveHasNoTombstone(w.db, id, p.row.version);
    } else if id !in u'.milvus || p.id != id {
      LockedOther(u, k, id);
    }
  }

  lemma VouchedLive(w: World, id: MemoryId)
    requires Vouched(w, id)
    ensures Live(w.db, id)
  {}

  lemma LockedOther(u: World, k: nat, id: MemoryId)
    requires HostOf(u, k) && u.workers[k].MLocked? && Vouched(Step(u, k), id)
    requires u.workers[k].id != id || id !in Step(u, k).milvus
    requires u.workers[k].row.Deleted() ==> u.workers[k].id != id
    ensures Vouched(u, id) && (id in u.milvus ==> id in Step(u, k).milvus)
  {
    hide Step, Refused, Writes, MilvusRowOf, StampOf, IsPending, Drop;
    LockedStepIs(u, k);
    DropIs(u, k);
    var u' := Step(u, k);
    if PastWrite(u', id) {
      var j :| j in u'.workers && Owes(u', j, id);
      assert Owes(u, j, id);
    }
  }

  lemma GuardedStep(v: World, u: World, k: nat, id: MemoryId)
    requires Guarded(v, u, id) && k in v.workers
    ensures HostOf(v, k) && HostOf(u, k) && Guarded(Step(v, k), Step(u, k), id)
  {
    hide Inv, Step, Vouched, Alike;
    StepKeeps(v, k);
    AlikeStep(v, u, k);
    VouchedAlike(v, u, id);
    VouchedAlike(Step(v, k), Step(u, k), id);
    if Vouched(Step(u, k), id) {
      if v.workers[k].MLocked? {
        LockedVouches(v, u, k, id);
      } else if v.workers[k].MAcking? || v.workers[k].FAcking? {
        AckVouches(v, k, id);
      } else {
        OtherSteps(v, k, id);
      }
    }
  }

  lemma VouchedAlike(v: World, u: World, id: MemoryId)
    requires Alike(v, u)
    ensures Vouched(v, id) == Vouched(u, id) && v.workers == u.workers
  {
    if Live(v.db, id) {
      if PastWrite(v, id) {
        var k :| k in v.workers && Owes(v, k, id);
        assert Owes(u, k, id);
      }
      if PastWrite(u, id) {
        var k :| k in u.workers && Owes(u, k, id);
        assert Owes(v, k, id);
      }
    }
  }

  lemma GuardedTakes(v: World, u: World, id: MemoryId, e: Event, u': World) returns (v': World)
    requires Guarded(v, u, id) && Takes(u, e, u')
    ensures Guarded(v', u', id)
  {
    hide Inv, Step, Vouched, Alike, Takes;
    v' := AlikeTakes(v, u, e, u');
    EventKeeps(v, e, v');
    if e.Advance? {
      GuardedStep(v, u, e.k, id);
    } else if Vouched(u', id) {
      VouchedAlike(v, u, id);
      VouchedAlike(v', u', id);
      QuietVouches(v, e, v', id);
    }
  }

  lemma {:induction false} GuardedPath(v: World, u: World, id: MemoryId, ws: seq<World>, es: seq<Event>, u': World)
    returns (v': World)
    requires Guarded(v, u, id) && Path(u, ws, es, u')
    ensures Guarded(v', u', id)
    decreases |es|
  {
    hide Guarded, Takes;
    if es == [] {
      v' := v;
    } else {
      var ws', es' := ws[..|es|], es[..|es| - 1];
      forall i | 0 <= i < |es'| ensures Takes(ws'[i], es'[i], ws'[i + 1]) { assert Takes(ws[i], es[i], ws[i + 1]); }
      var mid := GuardedPath(v, u, id, ws', es', ws[|es| - 1]);
      assert Takes(ws[|es| - 1], es[|es| - 1], ws[|es| - 1 + 1]);
      v' := GuardedTakes(mid, ws[|es| - 1], id, es[|es| - 1], u');
    }
  }

  /** However the protocol goes on, a row that was not vouched for is never missed. */
  lemma NeverLost(w: World, id: MemoryId, u: World)
    requires Inv(w) && !Vouched(w, id) && Reaches(Swept(w, id), u)
    ensures !Lost(u, id)
  {
    hide Inv, Takes;
    VouchedAlike(w, Swept(w, id), id);
    var ws, es :| Path(Swept(w, id), ws, es, u);
    var v := GuardedPath(w, Swept(w, id), id, ws, es, u);
  }

  // ---- A row that is -----------------------------------------------------------------------

  /** An owing worker's next statements acknowledge the row whether it is there or not. */
  lemma OwedIsLost(w: World, id: MemoryId, k: nat) returns (u: World)
    requires Inv(w) && Live(w.db, id) && k in w.workers && w.workers[k].MAcking? && Owes(w, k, id)
    ensures Reaches(Swept(w, id), u) && Lost(u, id)
  {
    hide Inv, AckTx, WorkerOk, Later;
    LateAck(w, k);
    var s := Swept(w, id);
    AlikeStep(w, s, k);
    u := Step(s, k);
    ReachesItself(s);
    ReachesOn(s, s, Advance(k), u);
    AckedNowSays(w, k, id);
  }

  lemma AckedNowSays(w: World, k: nat, id: MemoryId)
    requires Inv(w) && k in w.workers && w.workers[k].MAcking? && id in w.db.memories && Owes(w, k, id) && HostOf(w, k)
    ensures id in Step(w, k).db.memories && !IsPending(Step(w, k).db, Milvus, id)
    ensures Step(w, k).db.memories == w.db.memories
  {
    hide Inv, AckTx, WorkerOk;
    LateAck(w, k);
  }

  lemma VouchedIsLost(w: World, id: MemoryId) returns (u: World)
    requires Inv(w) && Vouched(w, id)
    ensures Reaches(Swept(w, id), u) && Lost(u, id)
  {
    hide Inv, Step, Reaches;
    var s := Swept(w, id);
    ReachesItself(s);
    if !IsPending(w.db, Milvus, id) {
      u := s;
    } else {
      var k :| k in w.workers && Owes(w, k, id);
      if w.workers[k].MAcking? {
        u := OwedIsLost(w, id, k);
      } else {
        StepKeeps(w, k);
        AlikeStep(w, s, k);
        var w', s' := Step(w, k), Step(s, k);
        UnlockIs(w, k, id);
        UnlockIs(s, k, id);
        assert s' == Swept(w', id);
        ReachesOn(s, s, Advance(k), s');
        u := OwedIsLost(w', id, k);
        ReachesBoth(s, s', u);
      }
    }
  }

  lemma UnlockIs(w: World, k: nat, id: MemoryId)
    requires HostOf(w, k) && id in w.db.memories && w.workers[k].MWrote? && Owes(w, k, id)
    ensures var w' := Step(w, k);
            && w'.db == w.db && w'.milvus == w.milvus && k in w'.workers && w'.workers[k].MAcking? && Owes(w', k, id)
  {}

  /** A row taken out of Milvus in the middle of a run, as a stray, may be missed for good, with its live
      record pending nowhere, exactly when it is vouched for at that moment: its record is live, and the
      acknowledgement is current or a worker past the locked write will make it so. */
  lemma StrayRemoval(w: World, id: MemoryId)
    requires Inv(w)
    ensures (exists u :: Reaches(Swept(w, id), u) && Lost(u, id)) <==> Vouched(w, id)
  {
    hide Inv, Vouched, Lost, Reaches;
    if Vouched(w, id) {
      var u := VouchedIsLost(w, id);
    } else {
      forall u | Reaches(Swept(w, id), u) ensures !Lost(u, id) { NeverLost(w, id, u); }
    }
  }

  // ---- Where nothing at all is vouched for ---------------------------------------------------

  /** With no acknowledgement of the record and no worker past the locked write, the removal is as if
      Milvus had never taken the record: the whole invariant holds on. */
  lemma UnackedSweepKeeps(w: World, id: MemoryId)
    requires Inv(w) && (Milvus, id) !in w.db.acks
    requires forall k | k in w.workers && w.workers[k].id == id :: !w.workers[k].MWrote? && !w.workers[k].MAcking?
    ensures Inv(Swept(w, id).(applied := Without(w.applied, id)))
  {
    hide Valid, Honest, ModelsOk, SeenOk, LocksOk, AcksOwned, FileOk, MilvusOk, WorkerOk;
    var w' := Swept(w, id).(applied := Without(w.applied, id));
    SelfGrows(w, w');
    QuietFrame(w, w');
    LocksFrame(w, w');
    forall o: MemoryId ensures MilvusOk(w', o) { if o == id { NothingTaken(w', id); } else { MilvusFrame(w, w', o); } }
    forall sv, o: MemoryId | sv in w'.files ensures FileOk(w', sv, o) { FileFrame(w, w', sv, o); }
    forall k | k in w'.workers ensures WorkerOk(w', k) { WorkerUnswept(w, w', k, id); }
  }

  lemma NothingTaken(w: World, id: MemoryId)
    requires id !in w.applied && id !in w.milvus && (Milvus, id) !in w.db.acks
    ensures MilvusOk(w, id)
  {}

  lemma WorkerUnswept(w: World, w': World, k: nat, id: MemoryId)
    requires k in w.workers && WorkerOk(w, k)
    requires w' == Swept(w, id).(applied := Without(w.applied, id))
    requires w.workers[k].id == id ==> !w.workers[k].MWrote? && !w.workers[k].MAcking?
    ensures WorkerOk(w', k)
  {
    if w.workers[k].HasRow() { CarriesSame(w, w', w.workers[k].id, w.workers[k].row, w.workers[k].gen); }
  }

  // ---- A run in which a record is lost -------------------------------------------------------

  const NAMED := Meta(Some("m"), Some(1), None, 1)

  const NOTE := NewMemory("t", "a", "p", "fact", Sha256("t"), "u", Active, None, map[], [], {}, "", None, None)

  function Start(): World {
    World(Db(map[], map[], map[], NAMED, 1), map[], map[], map[], map[], map[], map[], map[1 := Model("m", 1)], {})
  }

  lemma StartIsInitial()
    ensures Initial(Start())
  {
    var db := Start().db;
    assert Unique(db.memories) && SequencesUnique(db);
  }

  /** The store after `NOTE` was added to an empty one. */
  lemma NoteAdded(db: Db)
    requires db == Start().db
    ensures var db' := AddTx(db, NOTE, 0, 0).0;
            && db'.memories == map[0 := FreshRow(db, NOTE, None, 0)] && db'.meta == NAMED && db'.acks == map[]
  {
    MemoryImport.AddNames(db, NOTE, 0, 0);
    assert HashRows(db, "u", "p", Sha256("t")) == {};
    assert BadTargets(db, NOTE) == {} && TopicRows(db, "u", "p", None) == {};
  }

  /** One server, the note, no worker yet. */
  function Joined(server: Server): World {
    var w := Start();
    w.(db := AddTx(w.db, NOTE, 0, 0).0, servers := map["h" := server], files := map["h" := Fts.EMPTY])
  }

  lemma NoteAfterNote()
    ensures Initial(Start()) && Takes(Start(), Write(AddTx(Start().db, NOTE, 0, 0).0), AfterNote())
  {
    hide AddTx, Initial;
    StartIsInitial();
    InitialInv(Start());
    AddIsWrite(Start(), NOTE, 0, 0);
  }

  function AfterNote(): World { Start().(db := AddTx(Start().db, NOTE, 0, 0).0) }

  lemma ServerJoins(server: Server)
    ensures Takes(AfterNote(), Join("h", server), Joined(server))
  {
    hide AddTx;
    NoteAdded(Start().db);
  }

  lemma JoinedRun(server: Server) returns (ws: seq<World>, es: seq<Event>)
    ensures Run(ws, es) && ws[0] == Start() && ws[|es|] == Joined(server)
  {
    hide AddTx, Initial, Takes;
    NoteAfterNote();
    ServerJoins(server);
    ws := [Start(), AfterNote(), Joined(server)];
    es := [Write(AddTx(Start().db, NOTE, 0, 0).0), Join("h", server)];
  }

  /** What one Milvus call makes of the new note: its row and its acknowledgement. */
  lemma NoteIndexed(server: Server)
    requires server.model == Model("m", 1)
    ensures var w := Joined(server);
            var y := MilvusOne(MachineOf(w, "h", false), Local("h", server, None), 0, NoFault).0;
            && y.db.memories.Keys == {0} && !y.db.memories[0].Deleted() && 0 in y.milvus && PendingIds(y.db, Milvus) == {}
  {
    hide AddTx, MilvusRowOf;
    NoteAdded(Start().db);
    var w := Joined(server);
    assert !Refused(w.db.meta, server);
    var y := MilvusOne(MachineOf(w, "h", false), Local("h", server, None), 0, NoFault).0;
    assert y.db.acks == map[(Milvus, 0) := Ack(1, 1, false)];
    assert !IsPending(y.db, Milvus, 0);
  }

  /** A run that loses a record. The list of records is read first, when there are none; a record is
      created, indexed and acknowledged; then its row is taken for a stray. Before, Milvus holds exactly the
      live records; after, nothing is pending and it does not, and so it stays without another write. */
  lemma RecordLost()
    ensures exists ws: seq<World>, es: seq<Event> :: Run(ws, es) && RemovalLoses(ws[0], ws[|es|])
  {
    hide AddTx, Initial, Takes, MilvusOne, Reaches, MilvusMatches, RemovalLoses;
    var server := Server(Model("m", 1), Fingerprint("m", 1, ""));
    var ws, es := JoinedRun(server);
    var w := Joined(server);
    RunLast(ws, es);
    var v := MilvusCall(w, 0, "h", None, false, 0, NoFault);
    NoteIndexed(server);
    RunGoesOn(ws, es, v);
    var ws', es' :| Run(ws', es') && ws'[0] == ws[0] && ws'[|es'|] == v && |es'| >= |es|;
    RunLast(ws', es');
    LostAt(v);
  }

  /** Some row of `w` is a stray by the record list of `first`; with it gone its record is lost. */
  ghost predicate RemovalLoses(first: World, w: World) {
    exists id ::
      && id in Strays(first.db, w.milvus) && MilvusMatches(w)
      && Lost(Swept(w, id), id) && PendingIds(Swept(w, id).db, Milvus) == {} && !MilvusMatches(Swept(w, id))
  }

  lemma LostAt(v: World)
    requires Inv(v) && Live(v.db, 0) && 0 in v.milvus && PendingIds(v.db, Milvus) == {}
    ensures RemovalLoses(Start(), v)
  {
    hide Inv, IsPending;
    NothingPendingIn(v);
    assert 0 in Strays(Start().db, v.milvus);
    assert 0 !in Swept(v, 0).milvus;
    assert 0 !in PendingIds(v.db, Milvus);
  }

  lemma RunLast(ws: seq<World>, es: seq<Event>)
    requires Run(ws, es)
    ensures |ws| == |es| + 1 && Inv(ws[|es|])
  {
    RunInv(ws, es, |es|);
  }
}
