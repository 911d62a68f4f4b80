/** What a reconcile does to a run it meets, on the side of a host's file: it forgets a row with its watermark
    by a record list that may be out of date, and resets the acknowledgement in another transaction. The
    record is lost exactly when an acknowledgement of its current version is left, or a worker is about to
    make one. */
module IndexFileStrays {
  import opened Wrappers
  import opened MemoryStore
  import opened StoreInvariants
  import opened IndexProtocol
  import opened IndexGuarantees
  import opened IndexConvergence
  import opened IndexRefinement
  import opened IndexStrays
  import Fts = MemoryFts

  /** The file of `sv` has forgotten `id`, and with `reset` its acknowledgement is gone too. */
  function Forgotten(w: World, sv: string, id: MemoryId, reset: bool): World
    requires sv in w.files
  {
    w.(files := w.files[sv := Fts.Forget(w.files[sv], {id})],
       db := if reset then ResetAcks(w.db, Some({id}), Some(Consumer.Fts(sv))) else w.db)
  }

  /** Worker `k` is about to acknowledge a version of `id` in the file of `sv`. */
  predicate Acks(w: World, k: nat, sv: string, id: MemoryId) {
    k in w.workers && w.workers[k].FAcking? && w.workers[k].sv == sv && w.workers[k].id == id
  }

  /** The current version is acknowledged, or about to be. */
  predicate FileVouched(w: World, sv: string, id: MemoryId) {
    && id in w.db.memories
    && (!IsPending(w.db, Consumer.Fts(sv), id)
        || exists k | k in w.workers :: Acks(w, k, sv, id) && w.workers[k].row.version == w.db.memories[id].version)
  }

  /** Some worker is about to apply a version of `id` from before its deletion. */
  predicate Carried(w: World, sv: string, id: MemoryId) { exists k | k in w.workers :: Carrier(w, k, sv, id) }

  predicate Carrier(w: World, k: nat, sv: string, id: MemoryId)
    requires k in w.workers
  {
    var p := w.workers[k];
    p.FRead? && p.sv == sv && p.id == id && !p.row.Deleted()
  }

  /** The file is wrong about a record and nothing will put it right: not pending, and not there as it now is, or
      still there though deleted. */
  ghost predicate FileWrong(w: World, sv: string, id: MemoryId) {
    sv in w.files && id in w.db.memories && !IsPending(w.db, Consumer.Fts(sv), id) && !HeldNow(w.db, w.files[sv], id)
  }

  // ---- A world without what is spent --------------------------------------------------------

  /** Worker `k` acknowledges a version that is no longer the current one. */
  predicate Spent(w: World, k: nat, sv: string, id: MemoryId) {
    Acks(w, k, sv, id) && id in w.db.memories && w.workers[k].row.version < w.db.memories[id].version
  }

  /** The acknowledgement of `key` is the same in both, or says nothing about the current version in either. */
  ghost predicate AckTrails(a: Db, b: Db, key: (Consumer, MemoryId), sv: string, id: MemoryId) {
    || Same(a.acks, b.acks, key)
    || (&& key == (Consumer.Fts(sv), id) && id in a.memories
        && (key in a.acks ==> a.acks[key].version < a.memories[id].version)
        && (key in b.acks ==> b.acks[key].version < a.memories[id].version))
  }

  ghost predicate DbTrails(a: Db, b: Db, sv: string, id: MemoryId) {
    && b.memories == a.memories && b.log == a.log && b.meta == a.meta && b.nextSeq == a.nextSeq
    && b.acks.Keys <= a.acks.Keys
    && forall key :: AckTrails(a, b, key, sv, id)
  }

  ghost predicate WorkersTrail(a: World, b: World, sv: string, id: MemoryId) {
    && (forall k | k in b.workers :: k in a.workers && b.workers[k] == a.workers[k])
    && (forall k | k in a.workers && k !in b.workers :: Spent(a, k, sv, id))
  }

  ghost predicate RestSame(a: World, b: World) {
    && b.milvus == a.milvus && b.files == a.files && b.servers == a.servers && b.locks == a.locks
    && b.applied == a.applied && b.models == a.models && b.seen == a.seen
  }

  /** `b` is `a` without some workers and acknowledgements of `id` that are spent. */
  ghost predicate Trails(a: World, b: World, sv: string, id: MemoryId) {
    DbTrails(a.db, b.db, sv, id) && WorkersTrail(a, b, sv, id) && RestSame(a, b)
  }

  // ---- One event ----------------------------------------------------------------------------

  lemma WriteTrails(a: World, b: World, db: Db, sv: string, id: MemoryId) returns (db': Db)
    requires Trails(a, b, sv, id) && Inv(b) && Commit(a.db, db) && Valid(db) && Honest(db)
    ensures Commit(b.db, db') && Valid(db') && Honest(db')
    ensures Trails(a.(db := db), b.(db := db'), sv, id)
  {
    hide Inv, Valid, Honest, Commit, DbTrails;
    db' := db.(acks := map key | key in db.acks && key in b.db.acks :: b.db.acks[key]);
    CommitTrails(a.db, b.db, db, db', sv, id);
    FewerAcks(db, db');
    forall k | k in a.workers && k !in b.workers ensures Spent(a.(db := db), k, sv, id) {
      assert Spent(a, k, sv, id);
      NeverFalls(a.db, db, id);
    }
  }

  lemma NeverFalls(db: Db, db': Db, id: MemoryId)
    requires Commit(db, db') && id in db.memories
    ensures id in db'.memories && db.memories[id].version <= db'.memories[id].version
  {
    assert Kept(db, db', id) || Advanced(db, db', id);
  }

  lemma FewerAcks(db: Db, db': Db)
    requires Valid(db) && Honest(db) && db' == db.(acks := db'.acks) && db'.acks.Keys <= db.acks.Keys
    ensures Valid(db') && Honest(db')
  {
    hide Unique, Honest, LogOf, SequencesUnique;
    forall id | id in db'.memories ensures LogOf(db', id) { SameLog(db, db', id); }
    SameSequences(db, db');
    HonestLog(db, db');
  }

  lemma SameLog(db: Db, db': Db, id: MemoryId)
    requires db'.memories == db.memories && db'.log == db.log && id in db.memories && LogOf(db, id)
    ensures LogOf(db', id)
  {}

  lemma SameSequences(db: Db, db': Db)
    requires SequencesUnique(db) && db' == db.(acks := db'.acks)
    ensures SequencesUnique(db')
  {}

  lemma HonestLog(db: Db, db': Db)
    requires Honest(db) && db'.log == db.log
    ensures Honest(db')
  {}

  lemma CommitTrails(a: Db, b: Db, db: Db, db': Db, sv: string, id: MemoryId)
    requires DbTrails(a, b, sv, id) && Commit(a, db)
    requires db' == db.(acks := map key | key in db.acks && key in b.acks :: b.acks[key])
    ensures Commit(b, db') && DbTrails(db, db', sv, id)
  {
    forall o | o in b.memories ensures Kept(b, db', o) || Advanced(b, db', o) {
      assert Kept(a, db, o) || Advanced(a, db, o);
      if Kept(a, db, o) {
        forall c | (c, o) in b.acks ensures (c, o) in db'.acks { assert (c, o) in a.acks; }
      }
    }
    forall key ensures AckTrails(db, db', key, sv, id) {
      assert AckTrails(a, b, key, sv, id);
      if !Same(db.acks, db'.acks, key) {
        assert Kept(a, db, id) || Advanced(a, db, id);
      }
    }
  }

  lemma ForgetTrails(a: Db, b: Db, ids: Option<set<MemoryId>>, c: Option<Consumer>, sv: string, id: MemoryId)
    requires DbTrails(a, b, sv, id)
    ensures DbTrails(ResetAcks(a, ids, c), ResetAcks(b, ids, c), sv, id)
  {
    forall key ensures AckTrails(ResetAcks(a, ids, c), ResetAcks(b, ids, c), key, sv, id) {
      assert AckTrails(a, b, key, sv, id);
    }
  }

  /** The same worker's acknowledgement in both. */
  lemma AckBoth(a: Db, b: Db, c: Consumer, o: MemoryId, ack: Ack, sv: string, id: MemoryId)
    requires DbTrails(a, b, sv, id) && (o in a.memories ==> ack.version <= a.memories[o].version)
    ensures DbTrails(AckTx(a, c, o, ack).0, AckTx(b, c, o, ack).0, sv, id)
  {
    forall key ensures AckTrails(AckTx(a, c, o, ack).0, AckTx(b, c, o, ack).0, key, sv, id) {
      assert AckTrails(a, b, key, sv, id);
    }
    assert AckTrails(a, b, (c, o), sv, id);
  }

  /** The acknowledgement of a spent worker, in the one world that has it. */
  lemma AckSpent(a: Db, b: Db, ack: Ack, sv: string, id: MemoryId)
    requires DbTrails(a, b, sv, id) && id in a.memories && ack.version < a.memories[id].version
    ensures DbTrails(AckTx(a, Consumer.Fts(sv), id, ack).0, b, sv, id)
  {
    forall key ensures AckTrails(AckTx(a, Consumer.Fts(sv), id, ack).0, b, key, sv, id) {
      assert AckTrails(a, b, key, sv, id);
    }
  }

  /** What a statement of worker `k` goes by, acknowledgements to files aside. */
  ghost predicate SameFor(a: World, b: World, k: nat) {
    && k in a.workers && k in b.workers && b.workers[k] == a.workers[k] && RestSame(a, b)
    && b.db.memories == a.db.memories && b.db.meta == a.db.meta
    && forall o, v, g :: IsAcked(b.db, Milvus, o, v, g) == IsAcked(a.db, Milvus, o, v, g)
  }

  /** What it does: the same to what is not a table, and the same becomes of `k` alone. */
  ghost predicate DoesSame(a: World, b: World, a': World, b': World, k: nat) {
    && RestSame(a', b') && Same(a'.workers, b'.workers, k) && a'.db == a.db && b'.db == b.db
    && (forall j | j != k :: Same(a.workers, a'.workers, j) && Same(b.workers, b'.workers, j))
  }

  lemma ReadSame(a: World, b: World, o: MemoryId)
    requires RestSame(a, b) && b.db.memories == a.db.memories && b.db.meta == a.db.meta && o in a.db.memories
    ensures RestSame(ReadCanonical(a, o), ReadCanonical(b, o))
    ensures ReadCanonical(a, o) == a.(seen := ReadCanonical(a, o).seen) && ReadCanonical(b, o) == b.(seen := ReadCanonical(b, o).seen)
  {}

  lemma MilvusStart(a: World, b: World, k: nat)
    requires SameFor(a, b, k) && HostOf(a, k) && a.workers[k].MStart?
    ensures HostOf(b, k) && DoesSame(a, b, Step(a, k), Step(b, k), k)
  {
    hide IsAcked;
  }

  lemma MilvusRead(a: World, b: World, k: nat)
    requires SameFor(a, b, k) && HostOf(a, k) && a.workers[k].MRead?
    ensures HostOf(b, k) && DoesSame(a, b, Step(a, k), Step(b, k), k)
  {
    hide IsAcked, Drop;
    DropSame(a, b, k);
  }

  lemma MilvusTodo(a: World, b: World, k: nat)
    requires SameFor(a, b, k) && HostOf(a, k) && a.workers[k].MTodo?
    ensures HostOf(b, k) && DoesSame(a, b, Step(a, k), Step(b, k), k)
  {
    hide IsAcked;
  }

  lemma MilvusReady(a: World, b: World, k: nat)
    requires SameFor(a, b, k) && HostOf(a, k) && a.workers[k].MReady?
    ensures HostOf(b, k) && DoesSame(a, b, Step(a, k), Step(b, k), k)
  {
    hide IsAcked, ReadCanonical, Drop;
    DropSame(a, b, k);
    var o := a.workers[k].id;
    if o in a.db.memories { ReadSame(a, b, o); }
  }

  lemma MilvusWrote(a: World, b: World, k: nat)
    requires SameFor(a, b, k) && HostOf(a, k) && a.workers[k].MWrote?
    ensures HostOf(b, k) && DoesSame(a, b, Step(a, k), Step(b, k), k)
  {
    hide IsAcked;
  }

  lemma DropSame(a: World, b: World, k: nat)
    requires SameFor(a, b, k)
    ensures DoesSame(a, b, Drop(a, k), Drop(b, k), k)
  {
    hide IsAcked;
  }

  lemma BecomesSame(a: World, b: World, a': World, b': World, k: nat, p: Worker)
    requires DoesSame(a, b, a', b', k)
    ensures DoesSame(a, b, Becomes(a', k, p), Becomes(b', k, p), k)
  {
    forall j | j != k
      ensures Same(a.workers, Becomes(a', k, p).workers, j) && Same(b.workers, Becomes(b', k, p).workers, j)
    {
      assert Same(a.workers, a'.workers, j) && Same(b.workers, b'.workers, j);
    }
  }

  lemma GivesUpSame(a: World, b: World, k: nat, p: Worker)
    requires SameFor(a, b, k) && p.MLocked?
    ensures DoesSame(a, b, LockedGivesUp(a, k, p), LockedGivesUp(b, k, p), k)
  {
    hide DoesSame, SameFor, Drop, Becomes;
    DropSame(a, b, k);
    BecomesSame(a, b, Drop(a, k), Drop(b, k), k, MStart(p.sv, p.id, p.tries + 1));
  }

  lemma WritesSame(a: World, b: World, k: nat, p: Worker)
    requires SameFor(a, b, k) && p.MLocked? && (p.row.Deleted() || p.vector.Some?)
    ensures DoesSame(a, b, IndexStrays.LockedWrites(a, k, p), IndexStrays.LockedWrites(b, k, p), k)
  {
    hide IsAcked, MilvusRowOf, IndexProtocol.Written;
  }

  lemma MilvusLocked(a: World, b: World, k: nat)
    requires SameFor(a, b, k) && HostOf(a, k) && a.workers[k].MLocked?
    ensures HostOf(b, k) && DoesSame(a, b, Step(a, k), Step(b, k), k)
  {
    hide Step, Refused, IsAcked, IndexStrays.LockedWrites, LockedGivesUp, DoesSame;
    LockedStepIs(a, k);
    LockedStepIs(b, k);
    if Writes(a, k) { WritesSame(a, b, k, a.workers[k]); } else { GivesUpSame(a, b, k, a.workers[k]); }
  }

  lemma FileStart(a: World, b: World, k: nat)
    requires SameFor(a, b, k) && HostOf(a, k) && a.workers[k].FStart?
    ensures HostOf(b, k) && DoesSame(a, b, Step(a, k), Step(b, k), k)
  {
    hide IsAcked, ReadCanonical, Drop;
    DropSame(a, b, k);
    var o := a.workers[k].id;
    if o in a.db.memories { ReadSame(a, b, o); }
  }

  lemma FileRead(a: World, b: World, k: nat)
    requires SameFor(a, b, k) && HostOf(a, k) && a.workers[k].FRead?
    ensures HostOf(b, k) && DoesSame(a, b, Step(a, k), Step(b, k), k)
  {
    hide Fts.Apply, IsAcked;
  }

  lemma FileSkipped(a: World, b: World, k: nat)
    requires SameFor(a, b, k) && HostOf(a, k) && a.workers[k].FSkipped?
    ensures HostOf(b, k) && DoesSame(a, b, Step(a, k), Step(b, k), k)
  {
    hide IsAcked, Drop;
    DropSame(a, b, k);
  }

  lemma DoesAlike(a: World, b: World, k: nat)
    requires SameFor(a, b, k) && HostOf(a, k) && !a.workers[k].MAcking? && !a.workers[k].FAcking?
    ensures HostOf(b, k) && DoesSame(a, b, Step(a, k), Step(b, k), k)
  {
    hide Step, SameFor, DoesSame;
    match a.workers[k] {
      case MStart(_, _, _) => MilvusStart(a, b, k);
      case MRead(_, _, _, _, _) => MilvusRead(a, b, k);
      case MTodo(_, _, _, _, _) => MilvusTodo(a, b, k);
      case MReady(_, _, _, _, _) => MilvusReady(a, b, k);
      case MLocked(_, _, _, _, _, _, _, _) => MilvusLocked(a, b, k);
      case MWrote(_, _, _, _) => MilvusWrote(a, b, k);
      case FStart(_, _) => FileStart(a, b, k);
      case FRead(_, _, _, _) => FileRead(a, b, k);
      case FSkipped(_, _, _, _) => FileSkipped(a, b, k);
    }
  }

  /** Nothing but an acknowledgement changes the tables, and no other statement reads those of a file. */
  lemma StepTrails(a: World, b: World, k: nat, sv: string, id: MemoryId)
    requires Trails(a, b, sv, id) && HostOf(a, k) && k in b.workers
    requires !a.workers[k].MAcking? && !a.workers[k].FAcking?
    ensures HostOf(b, k) && Trails(Step(a, k), Step(b, k), sv, id)
  {
    hide DbTrails, Step, IsAcked, RestSame;
    MilvusAcksSame(a.db, b.db, sv, id);
    SameRest(a.db, b.db, sv, id);
    DoesAlike(a, b, k);
    WorkersGoOn(a, b, Step(a, k), Step(b, k), k, sv, id);
  }

  lemma WorkersGoOn(a: World, b: World, a': World, b': World, k: nat, sv: string, id: MemoryId)
    requires WorkersTrail(a, b, sv, id) && DoesSame(a, b, a', b', k) && k in b.workers
    ensures WorkersTrail(a', b', sv, id)
  {
    forall j | j in a'.workers && j !in b'.workers ensures Spent(a', j, sv, id) {
      assert j != k && Same(a.workers, a'.workers, j) && Same(b.workers, b'.workers, j);
      assert Spent(a, j, sv, id);
    }
    forall j | j in b'.workers ensures j in a'.workers && b'.workers[j] == a'.workers[j] {
      if j != k { assert Same(a.workers, a'.workers, j) && Same(b.workers, b'.workers, j); }
    }
  }

  lemma SameRest(a: Db, b: Db, sv: string, id: MemoryId)
    requires DbTrails(a, b, sv, id)
    ensures b.memories == a.memories && b.log == a.log && b.meta == a.meta && b.nextSeq == a.nextSeq
  {}

  lemma MilvusAcksSame(a: Db, b: Db, sv: string, id: MemoryId)
    requires DbTrails(a, b, sv, id)
    ensures forall o, v, g :: IsAcked(a, Milvus, o, v, g) == IsAcked(b, Milvus, o, v, g)
  {
    forall o, v, g ensures IsAcked(a, Milvus, o, v, g) == IsAcked(b, Milvus, o, v, g) {
      assert AckTrails(a, b, (Milvus, o), sv, id);
    }
  }

  /** A worker that both have acknowledges. */
  lemma AckStepTrails(a: World, b: World, k: nat, sv: string, id: MemoryId)
    requires Trails(a, b, sv, id) && Inv(b) && HostOf(a, k) && k in b.workers
    requires a.workers[k].MAcking? || a.workers[k].FAcking?
    ensures HostOf(b, k) && Trails(Step(a, k), Step(b, k), sv, id)
  {
    hide Inv, DbTrails, AckTx;
    var p := a.workers[k];
    SameRest(a.db, b.db, sv, id);
    WorkerBehind(b, k);
    var c := ConsumerOf(p);
    var ack := Ack(p.row.version, p.gen, p.row.Deleted());
    AckBoth(a.db, b.db, c, p.id, ack, sv, id);
    AckSame(a.db, c, p.id, ack);
    AckSame(b.db, c, p.id, ack);
    AckedDrops(a, k);
    AckedDrops(b, k);
    DropTrails(a.(db := AckTx(a.db, c, p.id, ack).0), b.(db := AckTx(b.db, c, p.id, ack).0), k, sv, id);
  }

  lemma AckSame(db: Db, c: Consumer, o: MemoryId, ack: Ack)
    ensures AckTx(db, c, o, ack).0.memories == db.memories
  {}

  lemma AckedDrops(w: World, k: nat)
    requires HostOf(w, k) && (w.workers[k].MAcking? || w.workers[k].FAcking?)
    ensures var p := w.workers[k];
            Step(w, k) == Drop(w.(db := AckTx(w.db, ConsumerOf(p), p.id, Ack(p.row.version, p.gen, p.row.Deleted())).0), k)
  {
    hide AckTx, Drop;
  }

  lemma DropTrails(a: World, b: World, k: nat, sv: string, id: MemoryId)
    requires Trails(a, b, sv, id)
    ensures Trails(Drop(a, k), Drop(b, k), sv, id)
  {
    hide DbTrails;
    forall j | j in Drop(a, k).workers && j !in Drop(b, k).workers ensures Spent(Drop(a, k), j, sv, id) {
      assert Spent(a, j, sv, id);
    }
  }

  /** A spent worker holds no lock, so the world without it need not move. */
  lemma SpentGoes(a: World, b: World, k: nat, sv: string, id: MemoryId)
    requires Trails(a, b, sv, id) && Inv(b) && k in a.workers && k !in b.workers
    ensures Trails(Drop(a, k), b, sv, id)
  {
    hide DbTrails, Inv;
    LocksHeldIn(b);
    NoLockGoes(a, k);
    forall j | j in Drop(a, k).workers && j !in b.workers ensures Spent(Drop(a, k), j, sv, id) {
      assert Spent(a, j, sv, id);
    }
  }

  lemma NoLockGoes(w: World, k: nat)
    requires forall o | o in w.locks :: w.locks[o] != k
    ensures Drop(w, k) == w.(workers := Without(w.workers, k))
  {
    assert Drop(w, k).locks == w.locks;
  }

  lemma LocksHeldIn(w: World)
    requires Inv(w)
    ensures forall id | id in w.locks :: w.locks[id] in w.workers
  {
    Parts(w);
  }

  lemma SpentAcks(a: World, b: World, k: nat, sv: string, id: MemoryId)
    requires Trails(a, b, sv, id) && Inv(b) && HostOf(a, k) && k !in b.workers
    ensures Trails(Step(a, k), b, sv, id)
  {
    hide DbTrails, AckTx, Inv, Drop;
    assert Spent(a, k, sv, id);
    var p := a.workers[k];
    var ack := Ack(p.row.version, p.gen, p.row.Deleted());
    AckSpent(a.db, b.db, ack, sv, id);
    AckedDrops(a, k);
    AckSame(a.db, ConsumerOf(p), p.id, ack);
    var a' := a.(db := AckTx(a.db, ConsumerOf(p), p.id, ack).0);
    forall j | j in a'.workers && j !in b.workers ensures Spent(a', j, sv, id) { assert Spent(a, j, sv, id); }
    SpentGoes(a', b, k, sv, id);
  }

  /** The workers of a server's process go with it, and the locks they held. */
  function WithoutHost(w: World, h: string, server: Server): World {
    w.(servers := w.servers[h := server],
       workers := map k | k in w.workers && w.workers[k].sv != h :: w.workers[k],
       locks := map o | o in w.locks && w.locks[o] in w.workers && w.workers[w.locks[o]].sv != h :: w.locks[o])
  }

  lemma RestartTrails(a: World, b: World, h: string, server: Server, sv: string, id: MemoryId)
    requires Trails(a, b, sv, id) && Inv(b)
    ensures Trails(WithoutHost(a, h, server), WithoutHost(b, h, server), sv, id)
  {
    hide DbTrails, Inv;
    LocksHeldIn(b);
    var a', b' := WithoutHost(a, h, server), WithoutHost(b, h, server);
    SpentStay(a, b, a', b', sv, id);
    assert a'.locks == b'.locks;
  }

  /** Whatever happens to the one, the other follows, or stays as it is. */
  lemma EventTrails(a: World, b: World, e: Event, a': World, sv: string, id: MemoryId) returns (b': World)
    requires Trails(a, b, sv, id) && Inv(b) && Takes(a, e, a')
    ensures Inv(b') && Trails(a', b', sv, id)
  {
    hide Inv, DbTrails, Step, Commit, Valid, Honest, ResetAcks, Bump, Claim, Drop;
    SameRest(a.db, b.db, sv, id);
    b' := b;
    var f := e;
    match e {
      case Write(db) =>
        var db' := WriteTrails(a, b, db, sv, id);
        b', f := b.(db := db'), Write(db');
      case Forget(ids, c) =>
        ForgetTrails(a.db, b.db, ids, c, sv, id);
        b' := b.(db := ResetAcks(b.db, ids, c));
        ResetRows(a.db, ids, c);
        SpentStay(a, b, a', b', sv, id);
      case NewGeneration(name, dim, fp) =>
        b' := WithMeta(b, Bump(b.db.meta, name, dim, fp));
        MetaTrails(a, b, Bump(b.db.meta, name, dim, fp), sv, id);
      case ClaimModel(name, dim, fp) =>
        b' := WithMeta(b, Claim(b.db.meta, name, dim, fp));
        MetaTrails(a, b, Claim(b.db.meta, name, dim, fp), sv, id);
      case Join(h, server) =>
        b' := b.(servers := b.servers[h := server], files := b.files[h := Fts.EMPTY]);
        SpentStay(a, b, a', b', sv, id);
        FewerKeys(a.db, b.db, sv, id);
      case Restart(h, server) =>
        b' := WithoutHost(b, h, server);
        assert a' == WithoutHost(a, h, server);
        RestartTrails(a, b, h, server, sv, id);
      case Spawn(k, p) =>
        b' := Becomes(b, k, p);
        SpentStay(a, b, a', b', sv, id);
      case Stop(k) =>
        if k in b.workers {
          b' := Drop(b, k);
          DropTrails(a, b, k, sv, id);
        } else {
          SpentGoes(a, b, k, sv, id);
          return b;
        }
      case Advance(k) =>
        if k in b.workers {
          if a.workers[k].MAcking? || a.workers[k].FAcking? {
            AckStepTrails(a, b, k, sv, id);
          } else {
            StepTrails(a, b, k, sv, id);
          }
          b' := Step(b, k);
        } else {
          SpentAcks(a, b, k, sv, id);
          return b;
        }
    }
    EventKeeps(b, f, b');
  }

  lemma FewerKeys(a: Db, b: Db, sv: string, id: MemoryId)
    requires DbTrails(a, b, sv, id)
    ensures b.acks.Keys <= a.acks.Keys
  {}

  lemma ResetRows(db: Db, ids: Option<set<MemoryId>>, c: Option<Consumer>)
    ensures ResetAcks(db, ids, c).memories == db.memories
  {}

  /** The records are those of before, and no worker is newly in the one world only. */
  lemma SpentStay(a: World, b: World, a': World, b': World, sv: string, id: MemoryId)
    requires WorkersTrail(a, b, sv, id) && a'.db.memories == a.db.memories
    requires forall j | j in b'.workers :: j in a'.workers && b'.workers[j] == a'.workers[j]
    requires forall j | j in a'.workers && j !in b'.workers ::
               j in a.workers && j !in b.workers && a'.workers[j] == a.workers[j]
    ensures WorkersTrail(a', b', sv, id)
  {
    forall j | j in a'.workers && j !in b'.workers ensures Spent(a', j, sv, id) { assert Spent(a, j, sv, id); }
  }

  lemma MetaTrails(a: World, b: World, meta: Meta, sv: string, id: MemoryId)
    requires Trails(a, b, sv, id)
    ensures Trails(WithMeta(a, meta), WithMeta(b, meta), sv, id)
  {
    forall key ensures AckTrails(WithMeta(a, meta).db, WithMeta(b, meta).db, key, sv, id) {
      assert AckTrails(a.db, b.db, key, sv, id);
    }
    forall j | j in a.workers && j !in b.workers ensures Spent(WithMeta(a, meta), j, sv, id) {
      assert Spent(a, j, sv, id);
    }
  }

  // ---- A row that is not vouched for --------------------------------------------------------

  /** The world as if the file had never taken `id`: no acknowledgement of it, and no worker about to make one. */
  function Purged(w: World, sv: string, id: MemoryId): World
    requires sv in w.files
  {
    w.(files := w.files[sv := Fts.Forget(w.files[sv], {id})],
       db := ResetAcks(w.db, Some({id}), Some(Consumer.Fts(sv))),
       workers := map k | k in w.workers && !Acks(w, k, sv, id) :: w.workers[k])
  }

  lemma PurgedKeeps(w: World, sv: string, id: MemoryId)
    requires Inv(w) && sv in w.files
    ensures Inv(Purged(w, sv, id))
  {
    hide Valid, Honest, ModelsOk, SeenOk, LocksOk, AcksOwned, FileOk, MilvusOk, WorkerOk, Takes;
    var w1, w' := w.(db := ResetAcks(w.db, Some({id}), Some(Consumer.Fts(sv)))), Purged(w, sv, id);
    ResetTakes(w, Some({id}), Some(Consumer.Fts(sv)));
    EventKeeps(w, Forget(Some({id}), Some(Consumer.Fts(sv))), w1);
    SelfGrows(w1, w');
    QuietFrame(w1, w');
    PurgedLocks(w1, w', sv, id);
    forall o: MemoryId ensures MilvusOk(w', o) { MilvusFrame(w1, w', o); }
    forall h, o: MemoryId | h in w'.files ensures FileOk(w', h, o) {
      if h == sv && o == id { NothingHeld(w', sv, id); } else { FileFrame(w1, w', h, o); }
    }
    forall k | k in w'.workers ensures WorkerOk(w', k) { PurgedWorker(w1, w', k, sv, id); }
  }

  lemma ResetTakes(w: World, ids: Option<set<MemoryId>>, c: Option<Consumer>)
    ensures Takes(w, Forget(ids, c), w.(db := ResetAcks(w.db, ids, c)))
  {}

  lemma PurgedLocks(w: World, w': World, sv: string, id: MemoryId)
    requires LocksOk(w) && w'.locks == w.locks
    requires w'.workers == map k | k in w.workers && !Acks(w, k, sv, id) :: w.workers[k]
    ensures LocksOk(w')
  {}

  lemma NothingHeld(w: World, sv: string, id: MemoryId)
    requires sv in w.files && id !in w.files[sv].rows && id !in w.files[sv].marks
    requires (Consumer.Fts(sv), id) !in w.db.acks
    ensures FileOk(w, sv, id)
  {}

  lemma PurgedWorker(w: World, w': World, k: nat, sv: string, id: MemoryId)
    requires k in w.workers && WorkerOk(w, k) && !Acks(w, k, sv, id) && sv in w.files
    requires w' == w.(files := w.files[sv := Fts.Forget(w.files[sv], {id})], workers := w'.workers)
    requires k in w'.workers && w'.workers[k] == w.workers[k]
    ensures WorkerOk(w', k)
  {
    if w.workers[k].HasRow() { CarriesSame(w, w', w.workers[k].id, w.workers[k].row, w.workers[k].gen); }
  }

  lemma PurgedTrails(w: World, sv: string, id: MemoryId, reset: bool)
    requires Inv(w) && sv in w.files && !FileVouched(Forgotten(w, sv, id, reset), sv, id)
    ensures Trails(Forgotten(w, sv, id, reset), Purged(w, sv, id), sv, id)
  {
    hide Inv;
    var a, b := Forgotten(w, sv, id, reset), Purged(w, sv, id);
    forall key ensures AckTrails(a.db, b.db, key, sv, id) {
      if key in w.db.acks { AckOwned(w, key); }
    }
    forall k | k in a.workers && k !in b.workers ensures Spent(a, k, sv, id) {
      assert Acks(a, k, sv, id);
      WorkerBehind(w, k);
    }
  }

  lemma AckOwned(w: World, key: (Consumer, MemoryId))
    requires Inv(w) && key in w.db.acks
    ensures key.1 in w.db.memories
  {}

  /** An acknowledged record of a sound world is in the file as it is, and so it is in the one it trails. */
  lemma TrailedHeld(a: World, b: World, sv: string, id: MemoryId)
    requires Trails(a, b, sv, id) && Inv(b)
    ensures !FileWrong(a, sv, id)
  {
    hide Inv;
    if sv in a.files && id in a.db.memories && !IsPending(a.db, Consumer.Fts(sv), id) {
      assert AckTrails(a.db, b.db, (Consumer.Fts(sv), id), sv, id);
      HeldWhenNotPending(b, sv, id);
    }
  }

  lemma {:induction false} TrailedPath(a: World, b: World, sv: string, id: MemoryId, ws: seq<World>, es: seq<Event>, u: World)
    returns (v: World)
    requires Trails(a, b, sv, id) && Inv(b) && Path(a, ws, es, u)
    ensures Trails(u, v, sv, id) && Inv(v)
    decreases |es|
  {
    hide Trails, Inv, Takes;
    if es == [] {
      v := b;
    } else {
      var ws', es' := ws[..|es|], es[..|es| - 1];
      forall i | 0 <= i < |es'| ensures Takes(ws'[i], es'[i], ws'[i + 1]) { assert Takes(ws[i], es[i], ws[i + 1]); }
      var mid := TrailedPath(a, b, sv, id, ws', es', ws[|es| - 1]);
      assert Takes(ws[|es| - 1], es[|es| - 1], ws[|es| - 1 + 1]);
      v := EventTrails(ws[|es| - 1], mid, es[|es| - 1], u, sv, id);
    }
  }

  lemma NeverFileWrong(w: World, sv: string, id: MemoryId, reset: bool, u: World)
    requires Inv(w) && sv in w.files && !FileVouched(Forgotten(w, sv, id, reset), sv, id)
    requires Reaches(Forgotten(w, sv, id, reset), u)
    ensures !FileWrong(u, sv, id)
  {
    hide Inv, Takes, FileVouched, Trails;
    var a := Forgotten(w, sv, id, reset);
    var ws, es :| Path(a, ws, es, u);
    PurgedKeeps(w, sv, id);
    PurgedTrails(w, sv, id, reset);
    var v := TrailedPath(a, Purged(w, sv, id), sv, id, ws, es, u);
    TrailedHeld(u, v, sv, id);
  }

  // ---- A deleted record's watermark ----------------------------------------------------------

  /** The files are the same, but that of `sv` may lack the watermark of a tombstone `id`. */
  ghost predicate FilesUnmarked(a: map<string, Fts.File>, b: map<string, Fts.File>, sv: string, id: MemoryId, version: nat) {
    && sv in a && sv in b && b == a[sv := b[sv]] && b[sv].rows == a[sv].rows && id !in a[sv].rows
    && b[sv].marks == a[sv].marks[id := Fts.Mark(version, true)] && (id in a[sv].marks ==> a == b)
  }

  /** `b` is `a` with that watermark, the record deleted and no worker about to apply an earlier version of it. */
  ghost predicate Unmarked(a: World, b: World, sv: string, id: MemoryId) {
    && b == a.(files := b.files) && id in a.db.memories && a.db.memories[id].Deleted() && !Carried(a, sv, id)
    && FilesUnmarked(a.files, b.files, sv, id, a.db.memories[id].version)
  }

  /** A tombstone a worker carries is the record's last version. */
  lemma TombstoneIsCurrent(w: World, k: nat)
    requires Inv(w) && k in w.workers && w.workers[k].HasRow() && w.workers[k].row.Deleted()
    ensures w.workers[k].id in w.db.memories && w.workers[k].row.version == w.db.memories[w.workers[k].id].version
  {
    hide Inv, SequencesUnique, Unique, Honest;
    WorkerBehind(w, k);
    InvValid(w);
    assert LogOf(w.db, w.workers[k].id);
  }

  /** A statement on no file. */
  lemma FilesApart(a: World, b: World, k: nat)
    requires b == a.(files := b.files) && HostOf(a, k) && HostOf(b, k)
    requires !a.workers[k].FRead? && !a.workers[k].FSkipped?
    ensures Step(b, k) == Step(a, k).(files := b.files) && Step(a, k).files == a.files
  {
    hide Step;
    match a.workers[k] {
      case MStart(_, _, _) => StartApart(a, b, k);
      case FStart(_, _) => StartApart(a, b, k);
      case MRead(_, _, _, _, _) => ReadApart(a, b, k);
      case MTodo(_, _, _, _, _) => ReadApart(a, b, k);
      case MReady(_, _, _, _, _) => ReadyApart(a, b, k);
      case MWrote(_, _, _, _) => ReadyApart(a, b, k);
      case MLocked(_, _, _, _, _, _, _, _) => LockedApart(a, b, k);
      case MAcking(_, _, _, _) => AckApart(a, b, k);
      case FAcking(_, _, _, _) => AckApart(a, b, k);
    }
  }

  lemma StartApart(a: World, b: World, k: nat)
    requires b == a.(files := b.files) && HostOf(a, k) && HostOf(b, k) && (a.workers[k].MStart? || a.workers[k].FStart?)
    ensures Step(b, k) == Step(a, k).(files := b.files) && Step(a, k).files == a.files
  {
    hide ReadCanonical, Drop;
    DropFiles(a, b, k);
    if a.workers[k].id in a.db.memories { ReadFiles(a, b, a.workers[k].id); }
  }

  lemma ReadFiles(a: World, b: World, o: MemoryId)
    requires b == a.(files := b.files) && o in a.db.memories
    ensures ReadCanonical(b, o) == ReadCanonical(a, o).(files := b.files) && ReadCanonical(a, o).files == a.files
  {}

  lemma ReadApart(a: World, b: World, k: nat)
    requires b == a.(files := b.files) && HostOf(a, k) && HostOf(b, k) && (a.workers[k].MRead? || a.workers[k].MTodo?)
    ensures Step(b, k) == Step(a, k).(files := b.files) && Step(a, k).files == a.files
  {
    hide IsAcked;
  }

  lemma ReadyApart(a: World, b: World, k: nat)
    requires b == a.(files := b.files) && HostOf(a, k) && HostOf(b, k) && (a.workers[k].MReady? || a.workers[k].MWrote?)
    ensures Step(b, k) == Step(a, k).(files := b.files) && Step(a, k).files == a.files
  {
    hide StampOf;
  }

  lemma LockedApart(a: World, b: World, k: nat)
    requires b == a.(files := b.files) && HostOf(a, k) && HostOf(b, k) && a.workers[k].MLocked?
    ensures Step(b, k) == Step(a, k).(files := b.files) && Step(a, k).files == a.files
  {
    hide Step, Refused, MilvusRowOf, IndexProtocol.Written, Drop;
    LockedStepIs(a, k);
    LockedStepIs(b, k);
    DropFiles(a, b, k);
  }

  lemma AckApart(a: World, b: World, k: nat)
    requires b == a.(files := b.files) && HostOf(a, k) && HostOf(b, k) && (a.workers[k].MAcking? || a.workers[k].FAcking?)
    ensures Step(b, k) == Step(a, k).(files := b.files) && Step(a, k).files == a.files
  {
    hide Step, AckTx;
    AckedDrops(a, k);
    AckedDrops(b, k);
  }

  /** A statement on another row of a file, or on another file. */
  lemma OtherRow(a: World, b: World, k: nat, sv: string, id: MemoryId)
    requires Unmarked(a, b, sv, id) && HostOf(a, k) && HostOf(b, k) && a.workers[k].FRead?
    requires a.workers[k].sv != sv || a.workers[k].id != id
    ensures Step(b, k) == Step(a, k).(files := Step(b, k).files)
    ensures FilesUnmarked(Step(a, k).files, Step(b, k).files, sv, id, a.db.memories[id].version)
  {
    hide Fts.Apply, Unmarked, FilesUnmarked;
    var p := a.workers[k];
    UnmarkedFiles(a, b, sv, id);
    if p.sv != sv {
      FilesElsewhere(a.files, b.files, sv, id, a.db.memories[id].version, p.sv, Fts.Apply(a.files[p.sv], p.id, p.row).0);
    } else {
      OneFile(a.files, b.files, sv, id, a.db.memories[id].version, p.id, p.row);
    }
  }

  lemma UnmarkedFiles(a: World, b: World, sv: string, id: MemoryId)
    requires Unmarked(a, b, sv, id)
    ensures b == a.(files := b.files) && id in a.db.memories && !Carried(a, sv, id)
    ensures FilesUnmarked(a.files, b.files, sv, id, a.db.memories[id].version) && a.db.memories[id].Deleted()
  {}

  lemma FilesElsewhere(a: map<string, Fts.File>, b: map<string, Fts.File>, sv: string, id: MemoryId, version: nat, h: string,
                       f: Fts.File)
    requires FilesUnmarked(a, b, sv, id, version) && h != sv
    ensures FilesUnmarked(a[h := f], b[h := f], sv, id, version)
  {}

  lemma OneFile(a: map<string, Fts.File>, b: map<string, Fts.File>, sv: string, id: MemoryId, version: nat, o: MemoryId,
                row: Memory)
    requires FilesUnmarked(a, b, sv, id, version) && o != id
    ensures var (f, q), (g, r) := Fts.Apply(a[sv], o, row), Fts.Apply(b[sv], o, row);
            q == r && FilesUnmarked(a[sv := f], b[sv := g], sv, id, version)
  {
    hide Fts.Apply;
    ApplyApart(a[sv], b[sv], o, row, id, version);
  }

  lemma ApplyApart(f: Fts.File, g: Fts.File, o: MemoryId, row: Memory, id: MemoryId, version: nat)
    requires o != id && g == Fts.File(f.rows, f.marks[id := Fts.Mark(version, true)]) && id !in f.rows
    ensures var (f', r), (g', q) := Fts.Apply(f, o, row), Fts.Apply(g, o, row);
            r == q && g' == Fts.File(f'.rows, f'.marks[id := Fts.Mark(version, true)]) && id !in f'.rows
            && (f == g ==> f' == g') && (id in f'.marks <==> id in f.marks)
  {}

  lemma OtherSkipped(a: World, b: World, k: nat, sv: string, id: MemoryId)
    requires Unmarked(a, b, sv, id) && HostOf(a, k) && HostOf(b, k) && a.workers[k].FSkipped?
    requires a.workers[k].sv != sv || a.workers[k].id != id || id in a.files[sv].marks
    ensures Step(b, k) == Step(a, k).(files := b.files) && Step(a, k).files == a.files
  {
    hide Drop;
    DropFiles(a, b, k);
  }

  lemma DropFiles(a: World, b: World, k: nat)
    requires b == a.(files := b.files)
    ensures Drop(b, k) == Drop(a, k).(files := b.files) && Drop(a, k).files == a.files
  {}

  /** The tombstone itself, applied where its watermark is missing and passed over where it is not. */
  lemma TombstoneRow(a: World, b: World, k: nat, sv: string, id: MemoryId)
    requires Unmarked(a, b, sv, id) && HostOf(a, k) && HostOf(b, k) && a.workers[k].FRead?
    requires a.workers[k].sv == sv && a.workers[k].id == id && a.workers[k].row.Deleted()
    requires a.workers[k].row.version == a.db.memories[id].version
    ensures HostOf(Step(b, k), k)
    ensures if id in a.files[sv].marks then Step(a, k) == Step(b, k)
            else Step(Step(b, k), k) == Step(a, k) && Step(a, k).files == b.files
    ensures Step(b, k).files == b.files
  {
    assert a.files[sv].rows - {id} == a.files[sv].rows;
  }

  lemma SkippedRow(a: World, b: World, k: nat, sv: string, id: MemoryId)
    requires Unmarked(a, b, sv, id) && HostOf(a, k) && a.workers[k].FSkipped?
    requires a.workers[k].sv == sv && a.workers[k].id == id && id !in a.files[sv].marks
    ensures Step(a, k) == Drop(a, k)
  {}

  lemma StepRows(w: World, k: nat)
    requires HostOf(w, k)
    ensures Step(w, k).db.memories == w.db.memories
  {
    var p := w.workers[k];
    if p.MAcking? || p.FAcking? {
      AckRows(w, k);
    } else if p.MLocked? {
      LockedRows(w, k);
    } else {
      ReadRows(w, k);
    }
  }

  lemma AckRows(w: World, k: nat)
    requires HostOf(w, k) && (w.workers[k].MAcking? || w.workers[k].FAcking?)
    ensures Step(w, k).db.memories == w.db.memories
  {
    hide Step;
    AckedDrops(w, k);
  }

  lemma LockedRows(w: World, k: nat)
    requires HostOf(w, k) && w.workers[k].MLocked?
    ensures Step(w, k).db.memories == w.db.memories
  {
    hide Step;
    LockedStepIs(w, k);
  }

  lemma ReadRows(w: World, k: nat)
    requires HostOf(w, k) && !w.workers[k].MAcking? && !w.workers[k].FAcking? && !w.workers[k].MLocked?
    ensures Step(w, k).db.memories == w.db.memories
  {
    hide Step, IsAcked;
    DoesAlike(w, w, k);
  }

  lemma CarriesOn(a: World, k: nat, sv: string, id: MemoryId)
    requires HostOf(a, k) && id in a.db.memories && a.db.memories[id].Deleted() && !Carried(a, sv, id)
    ensures !Carried(Step(a, k), sv, id)
  {
    hide Step;
    var a' := Step(a, k);
    OnlyOneMoves(a, k);
    forall j | j in a'.workers ensures !Carrier(a', j, sv, id) {
      if j != k {
        assert Same(a.workers, a'.workers, j);
        assert !Carrier(a, j, sv, id);
      } else if a'.workers[k].FRead? {
        OnlyStartReads(a, k);
      }
    }
  }

  lemma OnlyOneMoves(w: World, k: nat)
    requires HostOf(w, k)
    ensures forall j | j != k :: Same(w.workers, Step(w, k).workers, j)
  {
    hide Step, IsAcked;
    if w.workers[k].MAcking? || w.workers[k].FAcking? {
      AckMoves(w, k);
    } else {
      DoesAlike(w, w, k);
    }
  }

  lemma AckMoves(w: World, k: nat)
    requires HostOf(w, k) && (w.workers[k].MAcking? || w.workers[k].FAcking?)
    ensures Step(w, k).workers == Without(w.workers, k)
  {
    hide Step, AckTx;
    AckedDrops(w, k);
  }

  lemma OnlyStartReads(w: World, k: nat)
    requires HostOf(w, k) && k in Step(w, k).workers && Step(w, k).workers[k].FRead?
    ensures var p, p' := w.workers[k], Step(w, k).workers[k];
            p.FStart? && p'.sv == p.sv && p'.id == p.id && p.id in w.db.memories && p'.row == w.db.memories[p.id]
  {
    hide Step;
    match w.workers[k] {
      case MStart(_, _, _) => EarlyReadsNone(w, k);
      case MRead(_, _, _, _, _) => EarlyReadsNone(w, k);
      case MTodo(_, _, _, _, _) => EarlyReadsNone(w, k);
      case MReady(_, _, _, _, _) => LateReadsNone(w, k);
      case MWrote(_, _, _, _) => LateReadsNone(w, k);
      case MLocked(_, _, _, _, _, _, _, _) => LockedReadsNone(w, k);
      case MAcking(_, _, _, _) => AckMoves(w, k);
      case FAcking(_, _, _, _) => AckMoves(w, k);
      case FStart(_, _) => StartReads(w, k);
      case FRead(_, _, _, _) => AppliedReadsNone(w, k);
      case FSkipped(_, _, _, _) => AppliedReadsNone(w, k);
    }
  }

  lemma StartReads(w: World, k: nat)
    requires HostOf(w, k) && w.workers[k].FStart? && k in Step(w, k).workers
    ensures var p, p' := w.workers[k], Step(w, k).workers[k];
            p.id in w.db.memories && p' == FRead(p.sv, p.id, w.db.memories[p.id], w.db.meta.generation)
  {
    hide ReadCanonical, Drop;
    DropIs(w, k);
  }

  lemma EarlyReadsNone(w: World, k: nat)
    requires HostOf(w, k) && (w.workers[k].MStart? || w.workers[k].MRead? || w.workers[k].MTodo?) && k in Step(w, k).workers
    ensures !Step(w, k).workers[k].FRead?
  {
    hide IsAcked, ReadCanonical, Drop;
    DropIs(w, k);
  }

  lemma LateReadsNone(w: World, k: nat)
    requires HostOf(w, k) && (w.workers[k].MReady? || w.workers[k].MWrote?) && k in Step(w, k).workers
    ensures !Step(w, k).workers[k].FRead?
  {
    hide ReadCanonical, Drop;
    DropIs(w, k);
  }

  lemma LockedReadsNone(w: World, k: nat)
    requires HostOf(w, k) && w.workers[k].MLocked? && k in Step(w, k).workers
    ensures !Step(w, k).workers[k].FRead?
  {
    hide Step, MilvusTakes, Drop;
    LockedStepIs(w, k);
    DropIs(w, k);
  }

  lemma AppliedReadsNone(w: World, k: nat)
    requires HostOf(w, k) && (w.workers[k].FRead? || w.workers[k].FSkipped?) && k in Step(w, k).workers
    ensures !Step(w, k).workers[k].FRead?
  {
    hide Fts.Apply, Drop;
    DropIs(w, k);
  }

  /** A statement of a worker, and what the world with the watermark does meanwhile: the same, or a further step, or it
      lets the worker go. */
  lemma AdvanceUnmarked(a: World, b: World, k: nat, sv: string, id: MemoryId) returns (b': World)
    requires Unmarked(a, b, sv, id) && Inv(b) && HostOf(a, k)
    ensures Inv(b') && Unmarked(Step(a, k), b', sv, id)
  {
    hide Inv, Step, Carried, FilesUnmarked;
    UnmarkedFiles(a, b, sv, id);
    HostIn(b, k);
    var p := a.workers[k];
    CarriesOn(a, k, sv, id);
    StepRows(a, k);
    b' := Step(b, k);
    StepKeeps(b, k);
    if p.FRead? && p.sv == sv && p.id == id {
      assert p.row.Deleted() by { NotCarrier(a, k, sv, id); }
      TombstoneIsCurrent(b, k);
      TombstoneRow(a, b, k, sv, id);
      if id !in a.files[sv].marks {
        StepKeeps(b', k);
        b' := Step(b', k);
      }
      SameUnmarked(b.files, sv, id, a.db.memories[id].version, a.files);
    } else if p.FRead? {
      OtherRow(a, b, k, sv, id);
    } else if p.FSkipped? && p.sv == sv && p.id == id && id !in a.files[sv].marks {
      SkippedRow(a, b, k, sv, id);
      DropFiles(a, b, k);
      b' := Drop(b, k);
      DropKeeps(b, k);
    } else if p.FSkipped? {
      OtherSkipped(a, b, k, sv, id);
    } else {
      FilesApart(a, b, k);
    }
  }

  lemma NotCarrier(w: World, k: nat, sv: string, id: MemoryId)
    requires k in w.workers && !Carried(w, sv, id)
    ensures !Carrier(w, k, sv, id)
  {}

  lemma SameUnmarked(b: map<string, Fts.File>, sv: string, id: MemoryId, version: nat, a: map<string, Fts.File>)
    requires FilesUnmarked(a, b, sv, id, version)
    ensures FilesUnmarked(b, b, sv, id, version) && (id in a[sv].marks ==> a == b)
  {
    assert b[sv := b[sv]] == b;
  }

  lemma EventUnmarked(a: World, b: World, e: Event, a': World, sv: string, id: MemoryId) returns (b': World)
    requires Unmarked(a, b, sv, id) && Inv(b) && Takes(a, e, a')
    ensures Inv(b') && Unmarked(a', b', sv, id)
  {
    hide Inv, Step, Carried, FilesUnmarked, Valid, Honest, Commit, ResetAcks, Bump, Claim;
    UnmarkedFiles(a, b, sv, id);
    if e.Advance? {
      b' := AdvanceUnmarked(a, b, e.k, sv, id);
    } else {
      b' := a'.(files := if e.Join? then b.files[e.sv := Fts.EMPTY] else b.files);
      QuietUnmarked(a, b, e, a', sv, id);
      QuietFiles(a, b, e, a', sv, id);
      assert Takes(b, e, b') by { TakesApart(a, b, e, a'); }
      EventKeeps(b, e, b');
    }
  }

  lemma TakesApart(a: World, b: World, e: Event, a': World)
    requires b == a.(files := b.files) && Takes(a, e, a') && !e.Advance? && b.files.Keys == a.files.Keys
    ensures Takes(b, e, a'.(files := if e.Join? then b.files[e.sv := Fts.EMPTY] else b.files))
  {
    hide Valid, Honest, Commit, ResetAcks, Bump, Claim, Drop, WithMeta, Step;
    match e {
      case NewGeneration(name, dim, fp) => MetaApart(a, b, Bump(a.db.meta, name, dim, fp));
      case ClaimModel(name, dim, fp) => MetaApart(a, b, Claim(a.db.meta, name, dim, fp));
      case Restart(h, server) => RestartApart(a, b, h, server, a');
      case Stop(k) => DropFiles(a, b, k);
      case _ =>
    }
  }

  lemma MetaApart(a: World, b: World, meta: Meta)
    requires b == a.(files := b.files)
    ensures WithMeta(b, meta) == WithMeta(a, meta).(files := b.files)
  {}

  lemma RestartApart(a: World, b: World, h: string, server: Server, a': World)
    requires b == a.(files := b.files) && Takes(a, Restart(h, server), a')
    ensures Takes(b, Restart(h, server), a'.(files := b.files))
  {}

  lemma QuietFiles(a: World, b: World, e: Event, a': World, sv: string, id: MemoryId)
    requires Unmarked(a, b, sv, id) && Takes(a, e, a') && !e.Advance?
    ensures b.files.Keys == a.files.Keys
    ensures FilesUnmarked(a'.files, if e.Join? then b.files[e.sv := Fts.EMPTY] else b.files, sv, id, a.db.memories[id].version)
  {
    hide Takes, Unmarked, FilesUnmarked;
    UnmarkedFiles(a, b, sv, id);
    FilesKeys(a.files, b.files, sv, id, a.db.memories[id].version);
    OnlyJoinsAdd(a, e, a');
    if e.Join? {
      JoinsNew(a, e, a');
      FilesElsewhere(a.files, b.files, sv, id, a.db.memories[id].version, e.sv, Fts.EMPTY);
    }
  }

  lemma FilesKeys(a: map<string, Fts.File>, b: map<string, Fts.File>, sv: string, id: MemoryId, version: nat)
    requires FilesUnmarked(a, b, sv, id, version)
    ensures sv in a && b.Keys == a.Keys
  {}

  lemma JoinsNew(w: World, e: Event, w': World)
    requires Takes(w, e, w') && e.Join?
    ensures e.sv !in w.files
  {}

  lemma OnlyJoinsAdd(w: World, e: Event, w': World)
    requires Takes(w, e, w') && !e.Advance?
    ensures w'.files == if e.Join? then w.files[e.sv := Fts.EMPTY] else w.files
  {
    hide Takes;
    match e {
      case Write(db) => WriteFiles(w, db, w');
      case Forget(ids, c) => ForgetFiles(w, ids, c, w');
      case NewGeneration(name, dim, fp) => BumpFiles(w, name, dim, fp, w');
      case ClaimModel(name, dim, fp) => ClaimFiles(w, name, dim, fp, w');
      case Join(h, server) => JoinFiles(w, h, server, w');
      case Restart(h, server) => RestartFiles(w, h, server, w');
      case Spawn(k, p) => SpawnFiles(w, k, p, w');
      case Stop(k) => StopFiles(w, k, w');
    }
  }

  lemma WriteFiles(w: World, db: Db, w': World)
    requires Takes(w, Write(db), w')
    ensures w'.files == w.files
  {}

  lemma ForgetFiles(w: World, ids: Option<set<MemoryId>>, c: Option<Consumer>, w': World)
    requires Takes(w, Forget(ids, c), w')
    ensures w'.files == w.files
  {}

  lemma BumpFiles(w: World, name: Option<string>, dim: Option<nat>, fp: Option<Fingerprint>, w': World)
    requires Takes(w, NewGeneration(name, dim, fp), w')
    ensures w'.files == w.files
  {}

  lemma ClaimFiles(w: World, name: string, dim: nat, fp: Option<Fingerprint>, w': World)
    requires Takes(w, ClaimModel(name, dim, fp), w')
    ensures w'.files == w.files
  {}

  lemma JoinFiles(w: World, h: string, server: Server, w': World)
    requires Takes(w, Join(h, server), w')
    ensures w'.files == w.files[h := Fts.EMPTY]
  {}

  lemma RestartFiles(w: World, h: string, server: Server, w': World)
    requires Takes(w, Restart(h, server), w')
    ensures w'.files == w.files
  {}

  lemma SpawnFiles(w: World, k: nat, p: Worker, w': World)
    requires Takes(w, Spawn(k, p), w')
    ensures w'.files == w.files
  {}

  lemma StopFiles(w: World, k: nat, w': World)
    requires Takes(w, Stop(k), w')
    ensures w'.files == w.files
  {}

  lemma QuietUnmarked(a: World, b: World, e: Event, a': World, sv: string, id: MemoryId)
    requires Unmarked(a, b, sv, id) && Takes(a, e, a') && !e.Advance?
    ensures id in a'.db.memories && a'.db.memories[id] == a.db.memories[id] && !Carried(a', sv, id)
  {
    hide Valid, Honest, FilesUnmarked, Bump, Claim, Step;
    if e.Write? { assert Kept(a.db, e.db, id) || Advanced(a.db, e.db, id); }
    forall j | j in a'.workers ensures !Carrier(a', j, sv, id) {
      if j in a.workers { assert !Carrier(a, j, sv, id); }
    }
  }

  lemma UnmarkedHeld(a: World, b: World, sv: string, id: MemoryId)
    requires Unmarked(a, b, sv, id)
    ensures !FileWrong(a, sv, id)
  {}

  lemma {:induction false} UnmarkedPath(a: World, b: World, sv: string, id: MemoryId, ws: seq<World>, es: seq<Event>, u: World)
    returns (v: World)
    requires Unmarked(a, b, sv, id) && Inv(b) && Path(a, ws, es, u)
    ensures Unmarked(u, v, sv, id) && Inv(v)
    decreases |es|
  {
    hide Unmarked, Inv, Takes;
    if es == [] {
      v := b;
    } else {
      var ws', es' := ws[..|es|], es[..|es| - 1];
      forall i | 0 <= i < |es'| ensures Takes(ws'[i], es'[i], ws'[i + 1]) { assert Takes(ws[i], es[i], ws[i + 1]); }
      var mid := UnmarkedPath(a, b, sv, id, ws', es', ws[|es| - 1]);
      assert Takes(ws[|es| - 1], es[|es| - 1], ws[|es| - 1 + 1]);
      v := EventUnmarked(ws[|es| - 1], mid, es[|es| - 1], u, sv, id);
    }
  }

  /** A vouched-for tombstone was in the file as its watermark. */
  lemma VouchedMark(w: World, sv: string, id: MemoryId, reset: bool)
    requires Inv(w) && sv in w.files && FileVouched(Forgotten(w, sv, id, reset), sv, id) && w.db.memories[id].Deleted()
    ensures id in w.db.memories && id in w.files[sv].marks && id !in w.files[sv].rows
    ensures w.files[sv].marks[id] == Fts.Mark(w.db.memories[id].version, true)
  {
    hide Valid, Honest, ModelsOk, SeenOk, LocksOk, AcksOwned, AllMilvus;
    assert FileOk(w, sv, id);
    var a := Forgotten(w, sv, id, reset);
    if IsPending(a.db, Consumer.Fts(sv), id) {
      var k :| k in a.workers && Acks(a, k, sv, id) && a.workers[k].row.version == a.db.memories[id].version;
      assert WorkerOk(w, k);
    }
    CurrentLogged(w.db, id);
  }

  lemma VouchedUnmarked(w: World, sv: string, id: MemoryId, reset: bool)
    requires Inv(w) && sv in w.files && FileVouched(Forgotten(w, sv, id, reset), sv, id) && w.db.memories[id].Deleted()
    requires !Carried(Forgotten(w, sv, id, reset), sv, id)
    ensures var a := Forgotten(w, sv, id, reset);
            Unmarked(a, a.(files := w.files), sv, id) && Inv(a.(files := w.files))
  {
    hide Inv, FileVouched, Carried, Takes;
    VouchedMark(w, sv, id, reset);
    var a, f := Forgotten(w, sv, id, reset), w.files[sv];
    assert a.db.memories == w.db.memories;
    assert (f.marks - {id})[id := f.marks[id]] == f.marks && f.rows - {id} == f.rows;
    assert w.files[sv := Fts.Forget(f, {id})][sv := f] == w.files;
    assert a.(files := w.files).db == a.db;
    if !reset {
      assert a.(files := w.files) == w;
    } else {
      ResetTakes(w, Some({id}), Some(Consumer.Fts(sv)));
      EventKeeps(w, Forget(Some({id}), Some(Consumer.Fts(sv))), w.(db := ResetAcks(w.db, Some({id}), Some(Consumer.Fts(sv)))));
    }
  }

  // ---- A row that is vouched for -------------------------------------------------------------

  /** The forgotten world, or the one after the pending acknowledgement. */
  lemma VouchedAcks(w: World, sv: string, id: MemoryId, reset: bool) returns (u: World)
    requires Inv(w) && sv in w.files && FileVouched(Forgotten(w, sv, id, reset), sv, id)
    ensures var a := Forgotten(w, sv, id, reset);
            && Reaches(a, u) && u.files == a.files && u.servers == a.servers && u.db.memories == a.db.memories
            && !IsPending(u.db, Consumer.Fts(sv), id)
            && forall k | k in a.workers && a.workers[k].FRead? :: k in u.workers && u.workers[k] == a.workers[k]
  {
    hide Inv, AckTx, Reaches, Step;
    var a := Forgotten(w, sv, id, reset);
    ReachesItself(a);
    if !IsPending(a.db, Consumer.Fts(sv), id) {
      u := a;
    } else {
      var k :| k in a.workers && Acks(a, k, sv, id) && a.workers[k].row.version == a.db.memories[id].version;
      HostIn(w, k);
      u := Step(a, k);
      ReachesOn(a, a, Advance(k), u);
      var p := a.workers[k];
      AckedDrops(a, k);
      LastAck(a.db, sv, id, Ack(p.row.version, p.gen, p.row.Deleted()));
    }
  }

  lemma LastAck(db: Db, sv: string, id: MemoryId, ack: Ack)
    requires id in db.memories && IsPending(db, Consumer.Fts(sv), id) && ack.version == db.memories[id].version
    ensures var db' := AckTx(db, Consumer.Fts(sv), id, ack).0;
            db'.memories == db.memories && !IsPending(db', Consumer.Fts(sv), id)
  {}

  /** A worker that read the record before its deletion brings it back. */
  lemma CarrierReturns(a: World, u: World, k: nat, sv: string, id: MemoryId)
    requires sv in u.servers && sv in u.files && id in u.db.memories && u.db.memories[id].Deleted()
    requires !IsPending(u.db, Consumer.Fts(sv), id) && id !in u.files[sv].marks
    requires k in u.workers && Carrier(u, k, sv, id) && Reaches(a, u)
    ensures Reaches(a, Step(u, k)) && FileWrong(Step(u, k), sv, id)
  {
    hide Reaches;
    ReachesOn(a, u, Advance(k), Step(u, k));
  }

  lemma VouchedGoesWrong(w: World, sv: string, id: MemoryId, reset: bool) returns (u: World)
    requires Inv(w) && sv in w.files && FileVouched(Forgotten(w, sv, id, reset), sv, id)
    requires w.db.memories[id].Deleted() ==> Carried(Forgotten(w, sv, id, reset), sv, id)
    ensures Reaches(Forgotten(w, sv, id, reset), u) && FileWrong(u, sv, id)
  {
    hide Inv, Reaches, Step;
    var a := Forgotten(w, sv, id, reset);
    u := VouchedAcks(w, sv, id, reset);
    if w.db.memories[id].Deleted() {
      var k :| k in a.workers && Carrier(a, k, sv, id);
      HostIn(w, k);
      CarrierReturns(a, u, k, sv, id);
      u := Step(u, k);
    }
  }

  /** A file forgets a record in the middle of a run, its acknowledgement being reset with it or not. It may then end
      wrong about the record, which is pending nowhere, exactly when after that the current version is still
      acknowledged or about to be, and the record is live, so that it is missing, or some worker is about to
      apply a version from before its deletion, so that it comes back. */
  lemma FileRemoval(w: World, sv: string, id: MemoryId, reset: bool)
    requires Inv(w) && sv in w.files
    ensures (exists u :: Reaches(Forgotten(w, sv, id, reset), u) && FileWrong(u, sv, id))
            <==> var a := Forgotten(w, sv, id, reset); FileVouched(a, sv, id) && (Live(a.db, id) || Carried(a, sv, id))
  {
    hide Inv, FileWrong, Reaches, Carried;
    var a := Forgotten(w, sv, id, reset);
    if !FileVouched(a, sv, id) {
      forall u | Reaches(a, u) ensures !FileWrong(u, sv, id) { NeverFileWrong(w, sv, id, reset, u); }
    } else if Live(a.db, id) || Carried(a, sv, id) {
      var u := VouchedGoesWrong(w, sv, id, reset);
    } else {
      forall u | Reaches(a, u) ensures !FileWrong(u, sv, id) { MarkedNeverWrong(w, sv, id, reset, u); }
    }
  }

  lemma MarkedNeverWrong(w: World, sv: string, id: MemoryId, reset: bool, u: World)
    requires Inv(w) && sv in w.files && FileVouched(Forgotten(w, sv, id, reset), sv, id)
    requires w.db.memories[id].Deleted() && !Carried(Forgotten(w, sv, id, reset), sv, id)
    requires Reaches(Forgotten(w, sv, id, reset), u)
    ensures !FileWrong(u, sv, id)
  {
    hide Inv, Takes, FileVouched, Carried, Unmarked;
    var a := Forgotten(w, sv, id, reset);
    VouchedUnmarked(w, sv, id, reset);
    var ws, es :| Path(a, ws, es, u);
    var v := UnmarkedPath(a, a.(files := w.files), sv, id, ws, es, u);
    UnmarkedHeld(u, v, sv, id);
  }
}
